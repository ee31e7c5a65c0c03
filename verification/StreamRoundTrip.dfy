/** Decoding a whole stream: what compress.c sends, decompress.c and the output
    stage of bzlib.c turn back into the data, with every checksum in order. */
module StreamRoundTrip {
  import opened Arith
  import opened Bits
  import opened Rotations
  import opened InverseBwt
  import opened MoveToFront
  import opened GenerateMtf
  import opened RunLength
  import opened BlockCrc
  import opened Randomise
  import opened BlockImage
  import opened DecoderMachine
  import opened Histogram
  import opened DecodeImage
  import opened DecodeSymbols
  import CodeLengths

  // ---------- One block ----------

  function AllLens(lens: seq<seq<nat>>): (r: seq<seq<Len>>)
    requires forall t :: 0 <= t < |lens| ==> forall v :: 0 <= v < |lens[t]| ==> 1 <= lens[t][v] <= 20
    ensures r == lens
  {
    seq(|lens|, t requires 0 <= t < |lens| => Lens(lens[t]))
  }

  lemma CodingLens(c: Coding, alphaSize: nat, nMTF: nat)
    requires GoodCoding(c, alphaSize, nMTF)
    ensures forall t :: 0 <= t < |c.lens| ==> forall v :: 0 <= v < |c.lens[t]| ==> 1 <= c.lens[t][v] <= 20
    ensures forall t :: 0 <= t < |c.lens| ==> |c.lens[t]| == alphaSize
  {
    forall t | 0 <= t < |c.lens|
      ensures |c.lens[t]| == alphaSize && forall v :: 0 <= v < |c.lens[t]| ==> 1 <= c.lens[t][v] <= 20
    {
      assert GoodLengths(c.lens[t], alphaSize);
    }
  }

  lemma ColumnBytes(t: Tables, last: Block)
    requires Covers(t.inUse, last)
    ensures Bytes(t, Column(t.inUse, last)) == last
  {
    forall i | 0 <= i < |last| ensures Unseq(t, Column(t.inUse, last)[i]) == last[i] {
      UsedAt(t.inUse, last[i], 256);
    }
  }

  lemma StartEncodes(h: Head, t: Tables, last: Block)
    requires Covers(t.inUse, last) && last != [] && |last| <= 100000 * h.level <= 900000 && h.origPtr < |last|
    ensures Encodes(h, t, StartWork(), Symbols(t.inUse, last), 0, Iota(|Used(t.inUse, 256)|), Column(t.inUse, last), 0)
  {
    hide Used, Encode;
    NonEmptyUse(t.inUse, last);
    ColumnInList(t.inUse, last);
    NothingCounted();
    var syms := Symbols(t.inUse, last);
    assert syms[0..] == syms;
    assert Iota(256)[..|Used(t.inUse, 256)|] == Iota(|Used(t.inUse, 256)|);
  }

  /** From the first symbol of a block to its delivery. */
  lemma ReadSymbols(h: Head, t: Tables, c: Coding, last: Block)
    requires Covers(t.inUse, last) && last != [] && |last| <= 100000 * h.level <= 900000 && h.origPtr < |last|
    requires Coded(t, c, Symbols(t.inUse, last))
    ensures Leads(BeginSymbol(h, t, StartWork(), AnySymbol), c, Symbols(t.inUse, last), 0, Done(h, last))
  {
    hide Leads, Used, Encode, BeginSymbol, Unseq, Bytes, Column, Encodes, Symbols, Hist;
    var n := |Used(t.inUse, 256)|;
    NonEmptyUse(t.inUse, last);
    StartEncodes(h, t, last);
    assert Placed(StartWork(), 0) == StartWork();
    ReadColumn(h, t, StartWork(), c, Symbols(t.inUse, last), 0, Iota(n), Column(t.inUse, last), 0);
    ColumnBytes(t, last);
    assert [] + Repeat(Unseq(t, Iota(n)[0]), 0) + last == last;
  }

  /** Everything sendMTFValues wrote. */
  lemma ReadBody(h: Head, inUse: seq<bool>, c: Coding, last: Block)
    requires Covers(inUse, last) && last != [] && |last| <= 100000 * h.level <= 900000 && h.origPtr < |last|
    requires Codable(c, Symbols(inUse, last)) && GoodCoding(c, |Used(inUse, 256)| + 2, |Symbols(inUse, last)|)
    ensures AllIn(c.selectors, Iota(|c.lens|))
    ensures forall t :: 0 <= t < |c.lens| ==> c.lens[t] != []
    ensures Reaches(Mapping1(h, []), BodyBits(inUse, c, Symbols(inUse, last)), Done(h, last))
  {
    hide Reaches, Used, Encode, BeginSymbol, Symbols, Codable, HeadFrom, RowsFrom, ToBits, TablesBits, UnaryAll, Ranks,
      SymbolBits, CodeLengths.Kraft, StartWork;
    var syms := Symbols(inUse, last);
    NonEmptyUse(inUse, last);
    CodingLens(c, |Used(inUse, 256)| + 2, |syms|);
    SelectorsInList(c, |Used(inUse, 256)| + 2, |syms|);
    var lens := AllLens(c.lens);
    var t := Tables(inUse, c.selectors, lens);
    var s1, s2, s3 := Mapping1(h, []), Selector1(h, inUse), Coding1(h, inUse, |c.lens|, c.selectors, []);
    var s4, s5 := BeginSymbol(h, t, StartWork(), AnySymbol), Done(h, last);
    ReadMap(h, inUse);
    ReadSelectors(h, inUse, |c.lens|, c.selectors);
    ReadTables(h, inUse, c.selectors, lens, 0);
    assert lens[..0] == [] && lens[0..] == c.lens;
    ReadSymbols(h, t, c, last);
    var b1 := HeadFrom(inUse, 0) + RowsFrom(inUse, 0);
    var b2 := ToBits(|c.lens|, 3) + (ToBits(|c.selectors|, 15) + UnaryAll(Ranks(c.selectors, Iota(|c.lens|))));
    var b3, b4 := TablesBits(c.lens), SymbolBits(c, syms, 0);
    ReachThen(s3, b3, s4, b4, s5);
    ReachThen(s2, b2, s3, b3 + b4, s5);
    ReachThen(s1, b1, s2, b2 + (b3 + b4), s5);
    Regroup(HeadFrom(inUse, 0), RowsFrom(inUse, 0), ToBits(|c.lens|, 3), ToBits(|c.selectors|, 15),
            UnaryAll(Ranks(c.selectors, Iota(|c.lens|))), b3 + b4);
  }

  lemma Regroup(a: Bits, b: Bits, c: Bits, d: Bits, e: Bits, f: Bits)
    ensures a + (b + (c + (d + (e + f)))) == (a + b) + ((c + (d + e)) + f)
  {
  }

  /** What the machine holds when it has read a block. */
  ghost function Delivered(table: CrcTable, b: Sorted, level: nat): State
    requires GoodBlock(b, level)
  {
    Done(Head(level, Word(BlockSum(table, b.data)), false, b.origPtr), LastColumn(b.bytes, b.order))
  }

  lemma ReadBlock(table: CrcTable, b: Sorted, level: nat)
    requires GoodBlock(b, level) && level <= 9
    ensures Reaches(BlkHdr(level, 1), BlockBits(table, b, level), Delivered(table, b, level))
  {
    hide Reaches, SortsRotations, LastColumn, UnRle, HeadBits, BodyBits, Symbols, Used, BlockSum, Word, CodeLengths.Kraft;
    SortSize(b.bytes, b.order);
    var last := LastColumn(b.bytes, b.order);
    var h := Head(level, Word(BlockSum(table, b.data)), false, b.origPtr);
    BlockIsCodable(b, level);
    ReadBlockHead(level, BlockSum(table, b.data), b.origPtr);
    ReadBody(h, b.inUse, b.coding, last);
    ReachThen(BlkHdr(level, 1), HeadBits(BlockSum(table, b.data), b.origPtr), Mapping1(h, []),
              BodyBits(b.inUse, b.coding, Symbols(b.inUse, last)), Done(h, last));
  }

  lemma SortSize(b: Block, f: seq<nat>)
    requires SortsRotations(b, f)
    ensures b != [] && |LastColumn(b, f)| == |b| == |f|
  {
  }

  // ---------- Decoding to the end ----------

  datatype Verdict = Ended | Failed(code: ReturnCode) | Waiting

  /** A delivered block's data, when its checksum is right. A block that ends
      where a count should be yields its runs all the same: the count is then
      read beyond the end, where the walk has come round to the beginning. */
  function Deliver(table: CrcTable, h: Head, last: Block): (Block, Verdict) {
    if h.origPtr >= |last| then ([], Failed(DataError))
    else
      match UnRle(Unmasked(Unsort(last, h.origPtr, |last|), h.randomised))
      case None => (Tail(Unmasked(Unsort(last, h.origPtr, |last| + 2), h.randomised), |last|, 0), Failed(DataError))
      case Some(data) =>
        if Word(BlockSum(table, data)) != h.crc then (data, Failed(DataError)) else (data, Waiting)
  }

  /** All data decoded from the given bits, and where that ends. */
  function DecodeFrom(table: CrcTable, s: State, bits: Bits, combined: bv32): (Block, Verdict)
    decreases |bits|, if Reads(s) then 0 else 1
  {
    if s.Stop? then
      match s.code
      case StreamEnd(stored) => ([], if stored == Word(combined) then Ended else Failed(DataError))
      case _ => ([], Failed(s.code))
    else if s.Output? then
      var d := Deliver(table, s.h, s.bytes);
      if d.1 != Waiting then d
      else
        var r := DecodeFrom(table, BlkHdr(s.h.level, 1), bits, Combine(combined, BlockSum(table, d.0)));
        (d.0 + r.0, r.1)
    else
      var r := Advance(s, bits);
      if Reads(r.0) then ([], Waiting) else DecodeFrom(table, r.0, r.1, combined)
  }

  function Decode(table: CrcTable, bits: Bits): (Block, Verdict) {
    DecodeFrom(table, Magic(1), bits, 0)
  }

  lemma DecodeReaches(table: CrcTable, s: State, a: Bits, s': State, b: Bits, combined: bv32)
    requires Reaches(s, a, s') && Reads(s)
    ensures DecodeFrom(table, s, a + b, combined) == DecodeFrom(table, s', b, combined)
  {
    assert Advance(s, a + b) == Advance(s', b);
    RunStops(s', b);
    RunStops(s, a + b);
  }

  lemma RunStops(s: State, b: Bits)
    ensures !Reads(s) ==> Advance(s, b) == (s, b)
  {
  }

  lemma DeliveredWell(table: CrcTable, b: Sorted, level: nat)
    requires GoodBlock(b, level)
    ensures var s := Delivered(table, b, level); Deliver(table, s.h, s.bytes) == (b.data, Waiting)
  {
    hide SortsRotations, LastColumn, GoodCoding, Covers, UnRle, Unsort, Symbols, Used, BlockSum, Word;
    SortSize(b.bytes, b.order);
    UnsortRestores(b.bytes, b.order, b.origPtr);
    PlainStays(b.bytes);
  }

  /** A block that an older sender masked before sorting it, with the bit set,
      delivers its data just as well. */
  lemma DeliveredMasked(table: CrcTable, h: Head, bytes: Block, order: seq<nat>, data: Block)
    requires SortsRotations(Unmasked(bytes, true), order) && UnRle(bytes) == Some(data)
    requires h.randomised && h.origPtr < |order| && order[h.origPtr] == 0 && h.crc == Word(BlockSum(table, data))
    ensures Deliver(table, h, LastColumn(Unmasked(bytes, true), order)) == (data, Waiting)
  {
    hide SortsRotations, LastColumn, UnRle, Unsort, BlockSum, Word, Unmasked;
    SortSize(Unmasked(bytes, true), order);
    UnsortRestores(Unmasked(bytes, true), order, h.origPtr);
    UnmaskedTwice(bytes);
  }

  lemma {:induction false} DecodeBlocks(table: CrcTable, bs: seq<Sorted>, level: nat, rest: Bits, combined: bv32)
    requires GoodBlocks(bs, level) && level <= 9
    ensures DecodeFrom(table, BlkHdr(level, 1), BlocksBits(table, bs, level) + rest, combined) ==
      (var r := DecodeFrom(table, BlkHdr(level, 1), rest, CombineFrom(combined, Sums(table, bs)));
       (Data(bs) + r.0, r.1))
    decreases |bs|
  {
    hide GoodBlock, BlockBits, BlockSum, Combine, Reaches, Deliver, DecodeFrom;
    if bs == [] {
      assert [] + rest == rest;
      assert Sums(table, bs) == [];
      var r := DecodeFrom(table, BlkHdr(level, 1), rest, combined);
      assert [] + r.0 == r.0;
    } else {
      var b, bits := bs[0], BlocksBits(table, bs[1..], level);
      var s := Delivered(table, b, level);
      var c := Combine(combined, BlockSum(table, b.data));
      ReadBlock(table, b, level);
      assert BlocksBits(table, bs, level) + rest == BlockBits(table, b, level) + (bits + rest);
      DecodeReaches(table, BlkHdr(level, 1), BlockBits(table, b, level), s, bits + rest, combined);
      DeliveredWell(table, b, level);
      DecodeDelivery(table, s, bits + rest, combined, b.data);
      DecodeBlocks(table, bs[1..], level, rest, c);
      assert Sums(table, bs)[0] == BlockSum(table, b.data);
      assert Sums(table, bs)[1..] == Sums(table, bs[1..]);
      assert CombineFrom(combined, Sums(table, bs)) == CombineFrom(c, Sums(table, bs[1..]));
      var r := DecodeFrom(table, BlkHdr(level, 1), rest, CombineFrom(c, Sums(table, bs[1..])));
      assert b.data + (Data(bs[1..]) + r.0) == Data(bs) + r.0;
    }
  }

  lemma DecodeDelivery(table: CrcTable, s: State, bits: Bits, combined: bv32, data: Block)
    requires s.Output? && Deliver(table, s.h, s.bytes) == (data, Waiting)
    ensures DecodeFrom(table, s, bits, combined) ==
      (var r := DecodeFrom(table, BlkHdr(s.h.level, 1), bits, Combine(combined, BlockSum(table, data)));
       (data + r.0, r.1))
  {
    hide Deliver;
  }

  /** Mix the block checksums in, first to last. */
  function CombineFrom(combined: bv32, crcs: seq<bv32>): bv32
    decreases |crcs|
  {
    if crcs == [] then combined else CombineFrom(Combine(combined, crcs[0]), crcs[1..])
  }

  lemma {:induction false} CombineFromSnoc(combined: bv32, crcs: seq<bv32>, crc: bv32)
    ensures CombineFrom(combined, crcs + [crc]) == Combine(CombineFrom(combined, crcs), crc)
    decreases |crcs|
  {
    hide Combine;
    if crcs == [] {
      assert ([] + [crc])[1..] == [];
    } else {
      assert (crcs + [crc])[1..] == crcs[1..] + [crc];
      CombineFromSnoc(Combine(combined, crcs[0]), crcs[1..], crc);
    }
  }

  lemma {:induction false} CombineAllIsFrom(crcs: seq<bv32>)
    ensures CombineAll(crcs) == CombineFrom(0, crcs)
    decreases |crcs|
  {
    hide Combine;
    if crcs != [] {
      var n := |crcs| - 1;
      CombineAllIsFrom(crcs[..n]);
      CombineFromSnoc(0, crcs[..n], crcs[n]);
      assert crcs == crcs[..n] + [crcs[n]];
    }
  }

  lemma DecodeTrailer(table: CrcTable, level: nat, combined: bv32, padding: Bits)
    ensures DecodeFrom(table, BlkHdr(level, 1), Trailer(combined) + padding, combined) == ([], Ended)
  {
    hide Reaches, Word;
    ReadTrailer(level, combined);
    DecodeReaches(table, BlkHdr(level, 1), Trailer(combined), Stop(StreamEnd(Word(combined))), padding, combined);
  }

  /** The whole stream decodes to the data of all its blocks, for any coding
      the sender chose, and ends with all checksums right. */
  lemma StreamDecodes(table: CrcTable, bs: seq<Sorted>, level: nat, padding: Bits)
    requires GoodBlocks(bs, level) && 1 <= level <= 9
    ensures Decode(table, StreamBits(table, bs, level) + padding) == (Data(bs), Ended)
  {
    hide Reaches, GoodBlocks, StreamHeader, BlocksBits, Trailer, DecodeFrom, Combine;
    var combined := CombineAll(Sums(table, bs));
    CombineAllIsFrom(Sums(table, bs));
    var tail := Trailer(combined) + padding;
    assert StreamBits(table, bs, level) + padding == StreamHeader(level) + (BlocksBits(table, bs, level) + tail);
    ReadStreamHeader(level);
    DecodeReaches(table, Magic(1), StreamHeader(level), BlkHdr(level, 1), BlocksBits(table, bs, level) + tail, 0);
    DecodeBlocks(table, bs, level, tail, 0);
    DecodeTrailer(table, level, combined, padding);
    assert Data(bs) + [] == Data(bs);
  }
}
