/** What the decoder insists on: whatever bits it accepts are framed as the
    format says, and every checksum in them is that of the data delivered. */
module AcceptedStreams {
  import opened Arith
  import opened Bits
  import opened Rotations
  import opened MoveToFront
  import opened GenerateMtf
  import opened BlockCrc
  import opened BlockImage
  import opened DecoderMachine
  import opened StreamRoundTrip
  import opened StreamFormat

  // ---------- One byte at a time ----------

  lemma NextByte(s: State, bits: Bits) returns (v: nat, rest: Bits)
    requires Reads(s) && Need(s) == 8 && !Reads(Advance(s, bits).0)
    ensures v < 256 && bits == PutByte(v) + rest && Advance(s, bits) == Advance(Step(s, v), rest)
  {
    hide Step, ToBits, FromBits;
    Pow2Values();
    FromBitsBound(bits[..8]);
    ToFromBits(bits[..8]);
    v, rest := FromBits(bits[..8]), bits[8..];
  }

  lemma Stopped(code: ReturnCode, bits: Bits)
    ensures Advance(Stop(code), bits) == (Stop(code), bits)
  {
  }

  lemma Grow(a: Bits, b: Bits, c: Bits)
    ensures a + (b + c) == a + b + c
  {
  }

  /** Four bytes of the stream header, or an error. */
  lemma HeaderRead(bits: Bits) returns (level: nat, rest: Bits)
    requires !Reads(Advance(Magic(1), bits).0) && Advance(Magic(1), bits).0 != Stop(DataErrorMagic)
    ensures 1 <= level <= 9 && bits == ToBits(0x425A68, 24) + ToBits(0x30 + level, 8) + rest
    ensures Advance(Magic(1), bits) == Advance(BlkHdr(level, 1), rest)
  {
    hide Advance, ToBits;
    var v1, r1 := NextByte(Magic(1), bits);
    Stopped(DataErrorMagic, r1);
    var v2, r2 := NextByte(Magic(2), r1);
    Stopped(DataErrorMagic, r2);
    var v3, r3 := NextByte(Magic(3), r2);
    Stopped(DataErrorMagic, r3);
    var v4, r4 := NextByte(Level, r3);
    Stopped(DataErrorMagic, r4);
    level, rest := v4 - 0x30, r4;
    TwoBytes(0x42, 0x5A, 8);
    TwoBytes(0x425A, 0x68, 16);
    Grow(PutByte(v1), PutByte(v2), r2);
    Grow(PutByte(v1) + PutByte(v2), PutByte(v3), r3);
    Grow(PutByte(v1) + PutByte(v2) + PutByte(v3), PutByte(v4), r4);
  }

  /** Byte k of the block magic, or an error. */
  lemma MagicByte(level: nat, k: nat, bits: Bits) returns (rest: Bits)
    requires 2 <= k <= 6
    requires !Reads(Advance(BlkHdr(level, k), bits).0) && Advance(BlkHdr(level, k), bits).0 != Stop(DataError)
    ensures bits == PutByte(BLOCK_MAGIC[k - 1]) + rest
    ensures Advance(BlkHdr(level, k), bits) == Advance(if k < 6 then BlkHdr(level, k + 1) else Bcrc(level, 1, 0), rest)
  {
    hide Advance, ToBits;
    var v;
    v, rest := NextByte(BlkHdr(level, k), bits);
    Stopped(DataError, rest);
  }

  lemma {:induction false} MagicFrom(level: nat, k: nat, bits: Bits) returns (rest: Bits)
    requires 2 <= k <= 6
    requires !Reads(Advance(BlkHdr(level, k), bits).0) && Advance(BlkHdr(level, k), bits).0 != Stop(DataError)
    ensures bits == PutBytes(BLOCK_MAGIC[k - 1..]) + rest
    ensures Advance(BlkHdr(level, k), bits) == Advance(Bcrc(level, 1, 0), rest)
    decreases 6 - k
  {
    hide Advance, PutByte, PutBytes, Step;
    FirstOf(BLOCK_MAGIC[k - 1..]);
    assert BLOCK_MAGIC[k - 1..][1..] == BLOCK_MAGIC[k..];
    rest := MagicByte(level, k, bits);
    if k < 6 {
      var r := rest;
      rest := MagicFrom(level, k + 1, r);
      Grow(PutByte(BLOCK_MAGIC[k - 1]), PutBytes(BLOCK_MAGIC[k..]), rest);
    } else {
      FromNothing(0);
      assert BLOCK_MAGIC[k..] == [];
      assert PutByte(BLOCK_MAGIC[k - 1]) + [] == PutByte(BLOCK_MAGIC[k - 1]);
    }
  }

  /** Byte k of the trailer magic, or an error. */
  lemma EndByte(k: nat, bits: Bits) returns (rest: Bits)
    requires 2 <= k <= 6
    requires !Reads(Advance(EndHdr(k), bits).0) && Advance(EndHdr(k), bits).0 != Stop(DataError)
    ensures bits == PutByte(END_MAGIC[k - 1]) + rest
    ensures Advance(EndHdr(k), bits) == Advance(if k < 6 then EndHdr(k + 1) else Ccrc(1, 0), rest)
  {
    hide Advance, ToBits;
    var v;
    v, rest := NextByte(EndHdr(k), bits);
    Stopped(DataError, rest);
  }

  lemma {:induction false} EndFrom(k: nat, bits: Bits) returns (rest: Bits)
    requires 2 <= k <= 6
    requires !Reads(Advance(EndHdr(k), bits).0) && Advance(EndHdr(k), bits).0 != Stop(DataError)
    ensures bits == PutBytes(END_MAGIC[k - 1..]) + rest
    ensures Advance(EndHdr(k), bits) == Advance(Ccrc(1, 0), rest)
    decreases 6 - k
  {
    hide Advance, PutByte, PutBytes, Step;
    FirstOf(END_MAGIC[k - 1..]);
    assert END_MAGIC[k - 1..][1..] == END_MAGIC[k..];
    rest := EndByte(k, bits);
    if k < 6 {
      var r := rest;
      rest := EndFrom(k + 1, r);
      Grow(PutByte(END_MAGIC[k - 1]), PutBytes(END_MAGIC[k..]), rest);
    } else {
      FromNothing(0);
      assert END_MAGIC[k..] == [];
      assert PutByte(END_MAGIC[k - 1]) + [] == PutByte(END_MAGIC[k - 1]);
    }
  }

  /** Four bytes that become one number. */
  lemma FourAreNumber(a: Byte, b: Byte, c: Byte, d: Byte, rest: Bits)
    ensures PutByte(a) + (PutByte(b) + (PutByte(c) + (PutByte(d) + rest)))
         == ToBits(((a * 256 + b) * 256 + c) * 256 + d, 32) + rest
  {
    hide ToBits, PutByte;
    FromNothing(a);
    TwoBytes(a, b, 8);
    TwoBytes(256 * a + b, c, 16);
    TwoBytes(256 * (256 * a + b) + c, d, 24);
  }

  lemma CrcRead(level: nat, bits: Bits) returns (crc: nat, rest: Bits)
    requires !Reads(Advance(Bcrc(level, 1, 0), bits).0)
    ensures bits == ToBits(crc, 32) + rest && Advance(Bcrc(level, 1, 0), bits) == Advance(RandBit(level, crc), rest)
  {
    hide Advance, PutByte, ToBits;
    var a, r1 := NextByte(Bcrc(level, 1, 0), bits);
    var b, r2 := NextByte(Bcrc(level, 2, a), r1);
    var c, r3 := NextByte(Bcrc(level, 3, a * 256 + b), r2);
    var d, r4 := NextByte(Bcrc(level, 4, (a * 256 + b) * 256 + c), r3);
    crc, rest := ((a * 256 + b) * 256 + c) * 256 + d, r4;
    FourAreNumber(a, b, c, d, rest);
  }

  lemma CombinedRead(bits: Bits) returns (crc: nat, rest: Bits)
    requires !Reads(Advance(Ccrc(1, 0), bits).0)
    ensures bits == ToBits(crc, 32) + rest && Advance(Ccrc(1, 0), bits) == (Stop(StreamEnd(crc)), rest)
  {
    hide Advance, PutByte, ToBits;
    var a, r1 := NextByte(Ccrc(1, 0), bits);
    var b, r2 := NextByte(Ccrc(2, a), r1);
    var c, r3 := NextByte(Ccrc(3, a * 256 + b), r2);
    var d, r4 := NextByte(Ccrc(4, (a * 256 + b) * 256 + c), r3);
    crc, rest := ((a * 256 + b) * 256 + c) * 256 + d, r4;
    FourAreNumber(a, b, c, d, rest);
    Stopped(StreamEnd(crc), rest);
  }

  lemma BlockHeadRead(level: nat, bits: Bits) returns (crc: nat, rest: Bits)
    requires !Reads(Advance(BlkHdr(level, 2), bits).0) && Advance(BlkHdr(level, 2), bits).0 != Stop(DataError)
    ensures PutByte(0x31) + bits == ToBits(0x314159265359, 48) + ToBits(crc, 32) + rest
    ensures Advance(BlkHdr(level, 2), bits) == Advance(RandBit(level, crc), rest)
  {
    hide Advance, PutByte, PutBytes, ToBits, Step;
    var r := MagicFrom(level, 2, bits);
    crc, rest := CrcRead(level, r);
    FirstOf(BLOCK_MAGIC);
    BlockMagicNumber();
    BytesAreNumber(BLOCK_MAGIC);
    Grow(PutByte(0x31), PutBytes(BLOCK_MAGIC[1..]), r);
    Grow(ToBits(0x314159265359, 48), ToBits(crc, 32), rest);
  }

  lemma TrailerRead(bits: Bits) returns (crc: nat, rest: Bits)
    requires !Reads(Advance(EndHdr(2), bits).0) && Advance(EndHdr(2), bits).0 != Stop(DataError)
    ensures PutByte(0x17) + bits == ToBits(0x177245385090, 48) + ToBits(crc, 32) + rest
    ensures Advance(EndHdr(2), bits) == (Stop(StreamEnd(crc)), rest)
  {
    hide Advance, PutByte, PutBytes, ToBits, Step;
    var r := EndFrom(2, bits);
    crc, rest := CombinedRead(r);
    FirstOf(END_MAGIC);
    EndMagicNumber();
    BytesAreNumber(END_MAGIC);
    Grow(PutByte(0x17), PutBytes(END_MAGIC[1..]), r);
    Grow(ToBits(0x177245385090, 48), ToBits(crc, 32), rest);
  }

  /** A block head or a trailer, or an error. */
  lemma HeadRead(level: nat, bits: Bits) returns (block: bool, crc: nat, rest: Bits)
    requires !Reads(Advance(BlkHdr(level, 1), bits).0) && Advance(BlkHdr(level, 1), bits).0 != Stop(DataError)
    ensures bits == (if block then ToBits(0x314159265359, 48) else ToBits(0x177245385090, 48)) + ToBits(crc, 32) + rest
    ensures Advance(BlkHdr(level, 1), bits) == if block then Advance(RandBit(level, crc), rest) else (Stop(StreamEnd(crc)), rest)
  {
    hide Advance, PutByte, ToBits;
    var v, r := NextByte(BlkHdr(level, 1), bits);
    Stopped(DataError, r);
    block := v != 0x17;
    if block {
      crc, rest := BlockHeadRead(level, r);
    } else {
      crc, rest := TrailerRead(r);
    }
  }

  // ---------- The rest of a block ----------

  /** The block begun with this head is still being read, has been read, or has
      failed. */
  ghost predicate Carries(s: State, level: nat, crc: nat, rand: bool) {
    match s
    case Stop(code) => code == DataError || code == Undefined
    case OrigPtr(h, _) => Headed(h, level, crc, rand)
    case Mapping1(h, _) => Headed(h, level, crc, rand)
    case Mapping2(h, _, _, _) => Headed(h, level, crc, rand)
    case Selector1(h, _) => Headed(h, level, crc, rand)
    case Selector2(h, _, _) => Headed(h, level, crc, rand)
    case Selector3(h, _, _, _, _, _) => Headed(h, level, crc, rand)
    case Coding1(h, _, _, _, _) => Headed(h, level, crc, rand)
    case Coding2(h, _, _, _, _, _, _) => Headed(h, level, crc, rand)
    case Coding3(h, _, _, _, _, _, _) => Headed(h, level, crc, rand)
    case MtfFirst(h, _, _, _, _) => Headed(h, level, crc, rand)
    case MtfNext(h, _, _, _, _, _) => Headed(h, level, crc, rand)
    case Output(h, _, _) => Headed(h, level, crc, rand)
    case _ => false
  }

  predicate Headed(h: Head, level: nat, crc: nat, rand: bool) {
    h.level == level && h.crc == crc && h.randomised == rand
  }

  lemma BeginCarries(h: Head, t: Tables, w: Work, goal: Goal)
    ensures Carries(BeginSymbol(h, t, w, goal), h.level, h.crc, h.randomised)
  {
  }

  lemma ByteCarries(h: Head, t: Tables, w: Work, nn: nat)
    ensures Carries(TakeByte(h, t, w, nn), h.level, h.crc, h.randomised)
  {
    hide BeginSymbol, Unseq, MoveFront;
    if |w.bytes| < 100000 * h.level && nn < |w.list| {
      var uc := Unseq(t, w.list[nn]);
      BeginCarries(h, t, w.(list := MoveFront(w.list, nn), bytes := w.bytes + [uc], unzftab := Bump(w.unzftab, uc, 1)), AnySymbol);
    }
  }

  lemma NextCarries(h: Head, t: Tables, w: Work, sym: nat)
    ensures Carries(NextSymbol(h, t, w, sym), h.level, h.crc, h.randomised)
  {
    hide BeginSymbol, TakeByte, InRange;
    BeginCarries(h, t, w, RunDigit(-1 + (sym + 1) * 1, 2));
    if sym >= 1 { ByteCarries(h, t, w, sym - 1); }
  }

  lemma RunCarries(h: Head, t: Tables, w: Work, es: int, sym: nat)
    ensures Carries(EndRun(h, t, w, es, sym), h.level, h.crc, h.randomised)
  {
    hide NextSymbol, Unseq;
    var uc := Unseq(t, Front(w));
    var k: nat := if es + 1 < 0 then 0 else es + 1;
    NextCarries(h, t, w.(bytes := w.bytes + Repeat(uc, k), unzftab := Bump(w.unzftab, uc, k)), sym);
  }

  lemma SymbolCarries(h: Head, t: Tables, w: Work, goal: Goal, sym: nat)
    ensures Carries(GotSymbol(h, t, w, goal, sym), h.level, h.crc, h.randomised)
  {
    hide NextSymbol, BeginSymbol, EndRun;
    match goal
    case AnySymbol => NextCarries(h, t, w, sym);
    case RunDigit(es, n) =>
      BeginCarries(h, t, w, RunDigit(es + (sym + 1) * n, n * 2));
      RunCarries(h, t, w, es, sym);
  }

  lemma TryCarries(h: Head, t: Tables, w: Work, goal: Goal, zn: Pos, zvec: nat)
    ensures Carries(TrySymbol(h, t, w, goal, zn, zvec), h.level, h.crc, h.randomised)
  {
    hide GotSymbol, LimitFor, BaseFor, PermFor;
    if 0 <= w.groupNo < |t.selector| && t.selector[w.groupNo] < |t.len| {
      var len := t.len[t.selector[w.groupNo]];
      var k := zvec - BaseFor(len, zn);
      if 0 <= k < |PermFor(len)| {
        SymbolCarries(h, t, w, goal, PermFor(len)[k]);
      }
    }
  }

  lemma RowCarries(h: Head, inUse16: seq<bool>, inUse: seq<bool>)
    ensures Carries(EnterRow(h, inUse16, inUse), h.level, h.crc, h.randomised)
  {
    hide NextRow, Used;
  }

  lemma LengthCarries(h: Head, inUse: seq<bool>, nGroups: nat, selector: seq<nat>, len: seq<seq<Len>>, row: seq<Len>, curr: Len, v: nat)
    ensures Carries(AfterCoding2(h, inUse, nGroups, selector, len, row, curr, v), h.level, h.crc, h.randomised)
  {
    hide BeginSymbol, Used;
    BeginCarries(h, Tables(inUse, selector, len + [row + [curr]]), StartWork(), AnySymbol);
  }

  lemma RankCarries(h: Head, inUse: seq<bool>, nGroups: nat, nSelectors: nat, ranks: seq<nat>, j: nat, v: nat)
    ensures Carries(AfterSelector3(h, inUse, nGroups, nSelectors, ranks, j, v), h.level, h.crc, h.randomised)
  {
    hide Unrank, Iota;
  }

  lemma StepCarries(s: State, v: nat, level: nat, crc: nat, rand: bool)
    requires Reads(s) && Carries(s, level, crc, rand)
    ensures Carries(Step(s, v), level, crc, rand)
  {
    hide BeginSymbol, TrySymbol, EnterRow, AfterCoding2, AfterSelector3;
    match s
    case Mapping1(h, inUse16) => RowCarries(h, inUse16 + [v == 1], []);
    case Selector3(h, inUse, nGroups, nSelectors, ranks, j) => RankCarries(h, inUse, nGroups, nSelectors, ranks, j, v);
    case Mapping2(h, inUse16, inUse, j) => RowCarries(h, inUse16, inUse + [v == 1]);
    case Coding2(h, inUse, nGroups, selector, len, row, curr) => LengthCarries(h, inUse, nGroups, selector, len, row, curr, v);
    case MtfFirst(h, t, w, goal, zn) => TryCarries(h, t, w, goal, zn, v);
    case MtfNext(h, t, w, goal, zn, zvec) => TryCarries(h, t, w, goal, zn, zvec * 2 + v);
    case _ =>
  }

  /** What is read of a block is a prefix of the bits, and its level and checksum
      stay those of its head. */
  lemma {:induction false} BodyRead(s: State, bits: Bits, level: nat, crc: nat, rand: bool) returns (body: Bits)
    requires Carries(s, level, crc, rand)
    ensures Carries(Advance(s, bits).0, level, crc, rand) && bits == body + Advance(s, bits).1
    decreases |bits|
  {
    hide Step, Carries, FromBits;
    if !Reads(s) || |bits| < Need(s) {
      body := [];
    } else {
      var n := Need(s);
      StepCarries(s, FromBits(bits[..n]), level, crc, rand);
      var tail := BodyRead(Step(s, FromBits(bits[..n])), bits[n..], level, crc, rand);
      body := bits[..n] + tail;
      Grow(bits[..n], tail, Advance(s, bits).1);
    }
  }

  // ---------- A whole stream ----------

  /** The randomised bit. */
  lemma RandRead(level: nat, crc: nat, bits: Bits) returns (rand: bool, rest: Bits)
    requires !Reads(Advance(RandBit(level, crc), bits).0)
    ensures bits == [rand] + rest && Advance(RandBit(level, crc), bits) == Advance(OrigPtr(Head(level, crc, rand, 0), 1), rest)
  {
    rand, rest := bits[0], bits[1..];
    assert bits[..1] == [rand];
    assert FromBits([rand]) == if rand then 1 else 0 by { assert [rand][..0] == []; }
  }

  /** A block as it was accepted: its randomised bit, what follows its head, and
      its data. */
  datatype Frame = Frame(rand: bool, body: Bits, data: Block)

  function FrameBits(table: CrcTable, f: Frame): Bits {
    ToBits(0x314159265359, 48) + ToBits(Word(BlockSum(table, f.data)), 32) + [f.rand] + f.body
  }

  function FramesBits(table: CrcTable, fs: seq<Frame>): Bits {
    if fs == [] then [] else FrameBits(table, fs[0]) + FramesBits(table, fs[1..])
  }

  function FramesData(fs: seq<Frame>): Block {
    if fs == [] then [] else fs[0].data + FramesData(fs[1..])
  }

  function FrameSums(table: CrcTable, fs: seq<Frame>): seq<bv32> {
    if fs == [] then [] else [BlockSum(table, fs[0].data)] + FrameSums(table, fs[1..])
  }

  function EndBits(combined: bv32): Bits {
    ToBits(0x177245385090, 48) + ToBits(Word(combined), 32)
  }

  /** A delivered block whose data counts has the checksum stored for it. */
  lemma DeliveredSum(table: CrcTable, h: Head, last: Block)
    requires Deliver(table, h, last).1 == Waiting
    ensures Word(BlockSum(table, Deliver(table, h, last).0)) == h.crc
  {
    hide BlockSum, Word;
  }

  lemma DeliveredOrNot(table: CrcTable, h: Head, last: Block)
    ensures Deliver(table, h, last).1 in {Failed(DataError), Waiting}
  {
    hide BlockSum, Word;
  }

  lemma FirstFrame(table: CrcTable, f: Frame, fs: seq<Frame>, tail: Bits)
    ensures FramesBits(table, [f] + fs) + tail == FrameBits(table, f) + (FramesBits(table, fs) + tail)
    ensures FramesData([f] + fs) == f.data + FramesData(fs)
    ensures FrameSums(table, [f] + fs) == [BlockSum(table, f.data)] + FrameSums(table, fs)
  {
    hide FrameBits, BlockSum;
    assert ([f] + fs)[1..] == fs;
  }

  /** One block of an accepted stream, or its trailer. */
  lemma NextAccepted(table: CrcTable, level: nat, bits: Bits, combined: bv32)
    returns (block: bool, f: Frame, rest: Bits)
    requires DecodeFrom(table, BlkHdr(level, 1), bits, combined).1 == Ended
    ensures |rest| < |bits|
    ensures block ==> bits == FrameBits(table, f) + rest
    ensures block ==>
      var r := DecodeFrom(table, BlkHdr(level, 1), rest, Combine(combined, BlockSum(table, f.data)));
      DecodeFrom(table, BlkHdr(level, 1), bits, combined) == (f.data + r.0, r.1)
    ensures !block ==> bits == EndBits(combined) + rest && DecodeFrom(table, BlkHdr(level, 1), bits, combined).0 == []
  {
    hide Advance, Deliver, BlockSum, Word, Combine, ToBits, Step;
    var crc, tail;
    f := Frame(false, [], []);
    block, crc, tail := HeadRead(level, bits);
    if block {
      var rand, tail' := RandRead(level, crc, tail);
      var s := OrigPtr(Head(level, crc, rand, 0), 1);
      var body := BodyRead(s, tail', level, crc, rand);
      var r := Advance(s, tail');
      assert r.0.Output?;
      var d := Deliver(table, r.0.h, r.0.bytes);
      DeliveredOrNot(table, r.0.h, r.0.bytes);
      DeliveredSum(table, r.0.h, r.0.bytes);
      f, rest := Frame(rand, body, d.0), r.1;
      Grow(ToBits(0x314159265359, 48) + ToBits(crc, 32), [rand], tail');
      Grow(ToBits(0x314159265359, 48) + ToBits(crc, 32) + [rand], body, rest);
    } else {
      rest := tail;
    }
  }

  lemma {:induction false} BlocksAccepted(table: CrcTable, level: nat, bits: Bits, combined: bv32)
    returns (fs: seq<Frame>, rest: Bits)
    requires DecodeFrom(table, BlkHdr(level, 1), bits, combined).1 == Ended
    ensures DecodeFrom(table, BlkHdr(level, 1), bits, combined).0 == FramesData(fs)
    ensures bits == FramesBits(table, fs) + (EndBits(CombineFrom(combined, FrameSums(table, fs))) + rest)
    decreases |bits|
  {
    hide DecodeFrom, FrameBits, EndBits, BlockSum, Combine;
    var block, f, tail := NextAccepted(table, level, bits, combined);
    if block {
      var fs';
      fs', rest := BlocksAccepted(table, level, tail, Combine(combined, BlockSum(table, f.data)));
      fs := [f] + fs';
      var end := EndBits(CombineFrom(Combine(combined, BlockSum(table, f.data)), FrameSums(table, fs'))) + rest;
      FirstFrame(table, f, fs', end);
      assert FrameSums(table, fs)[1..] == FrameSums(table, fs');
    } else {
      fs, rest := [], tail;
      assert [] + (EndBits(combined) + rest) == EndBits(combined) + rest;
    }
  }

  lemma MagicVerdict(table: CrcTable, bits: Bits)
    ensures DecodeFrom(table, Stop(DataErrorMagic), bits, 0).1 == Failed(DataErrorMagic)
  {
  }

  /** Any bits the decoder accepts are a stream: BZh and a digit, then blocks,
      each behind its magic and the checksum of the data delivered for it, then the trailer with their combined checksum. */
  lemma AcceptedIsFramed(table: CrcTable, bits: Bits) returns (level: nat, fs: seq<Frame>, rest: Bits)
    requires StreamRoundTrip.Decode(table, bits).1 == Ended
    ensures 1 <= level <= 9 && StreamRoundTrip.Decode(table, bits).0 == FramesData(fs)
    ensures bits == ToBits(0x425A68, 24) + ToBits(0x30 + level, 8)
                    + (FramesBits(table, fs) + (EndBits(CombineAll(FrameSums(table, fs))) + rest))
  {
    hide Advance, Deliver, ToBits, FramesBits, EndBits, FramesData, FrameSums;
    var r := Advance(Magic(1), bits);
    var tail;
    MagicVerdict(table, r.1);
    level, tail := HeaderRead(bits);
    fs, rest := BlocksAccepted(table, level, tail, 0);
    CombineAllIsFrom(FrameSums(table, fs));
  }

  // ---------- The header ----------

  ghost predicate GoodHeader(bits: Bits)
    requires |bits| >= 32
  {
    bits[..24] == ToBits(0x425A68, 24) && 0x31 <= FromBits(bits[24..32]) <= 0x39
  }

  /** Past the header no magic number is missed any more. */
  ghost predicate Begun(s: State) {
    match s
    case Magic(_) => false
    case Level => false
    case Stop(code) => code != DataErrorMagic
    case _ => true
  }

  lemma StepBegun(s: State, v: nat)
    requires Reads(s) && Begun(s)
    ensures Begun(Step(s, v))
  {
    hide Step, Carries;
    if s.BlkHdr? || s.Bcrc? || s.RandBit? || s.EndHdr? || s.Ccrc? {
      HeadsBegun(s, v);
    } else {
      CarriesItself(s);
      StepCarries(s, v, s.h.level, s.h.crc, s.h.randomised);
      CarriesBegun(Step(s, v), s.h.level, s.h.crc, s.h.randomised);
    }
  }

  lemma HeadsBegun(s: State, v: nat)
    requires s.BlkHdr? || s.Bcrc? || s.RandBit? || s.EndHdr? || s.Ccrc?
    ensures Begun(Step(s, v))
  {
  }

  lemma CarriesItself(s: State)
    requires Reads(s) && Begun(s) && !s.BlkHdr? && !s.Bcrc? && !s.RandBit? && !s.EndHdr? && !s.Ccrc?
    ensures Carries(s, s.h.level, s.h.crc, s.h.randomised)
  {
  }

  lemma CarriesBegun(s: State, level: nat, crc: nat, rand: bool)
    requires Carries(s, level, crc, rand)
    ensures Begun(s)
  {
  }

  lemma {:induction false} AdvanceBegun(s: State, bits: Bits)
    requires Begun(s)
    ensures Begun(Advance(s, bits).0)
    decreases |bits|
  {
    hide Step, Begun, FromBits;
    if Reads(s) && |bits| >= Need(s) {
      var n := Need(s);
      StepBegun(s, FromBits(bits[..n]));
      AdvanceBegun(Step(s, FromBits(bits[..n])), bits[n..]);
    }
  }

  lemma {:induction false} NoMagicError(table: CrcTable, s: State, bits: Bits, combined: bv32)
    requires Begun(s)
    ensures DecodeFrom(table, s, bits, combined).1 != Failed(DataErrorMagic)
    decreases |bits|, if Reads(s) then 0 else 1
  {
    hide Deliver, Combine, BlockSum, Word;
    if s.Output? {
      var d := Deliver(table, s.h, s.bytes);
      DeliveredOrNot(table, s.h, s.bytes);
      if d.1 == Waiting {
        NoMagicError(table, BlkHdr(s.h.level, 1), bits, Combine(combined, BlockSum(table, d.0)));
      }
    } else if Reads(s) {
      var r := Advance(s, bits);
      AdvanceBegun(s, bits);
      if !Reads(r.0) { NoMagicError(table, r.0, r.1, combined); }
    }
  }

  lemma ByteStep(s: State, bits: Bits)
    requires Reads(s) && Need(s) == 8 && |bits| >= 8
    ensures Advance(s, bits) == Advance(Step(s, FromBits(bits[..8])), bits[8..])
    ensures Step(s, FromBits(bits[..8])).Stop? ==> Advance(s, bits) == (Step(s, FromBits(bits[..8])), bits[8..])
  {
    hide FromBits, Step;
  }

  lemma MagicStep(k: nat, bits: Bits)
    requires 1 <= k <= 3 && |bits| >= 8
    ensures Advance(Magic(k), bits) ==
      if FromBits(bits[..8]) != (if k == 1 then 0x42 else if k == 2 then 0x5A else 0x68) then (Stop(DataErrorMagic), bits[8..])
      else Advance(if k < 3 then Magic(k + 1) else Level, bits[8..])
  {
    hide FromBits, Advance;
    ByteStep(Magic(k), bits);
  }

  lemma LevelStep(bits: Bits)
    requires |bits| >= 8
    ensures Advance(Level, bits) ==
      if 0x31 <= FromBits(bits[..8]) <= 0x39 then Advance(BlkHdr(FromBits(bits[..8]) - 0x30, 1), bits[8..])
      else (Stop(DataErrorMagic), bits[8..])
  {
    hide FromBits, Advance;
    ByteStep(Level, bits);
  }

  lemma Later(bits: Bits, n: nat)
    requires n + 8 <= |bits|
    ensures bits[n..][..8] == bits[n..n + 8] && bits[n..][8..] == bits[n + 8..]
  {
  }

  predicate Letters(bits: Bits)
    requires |bits| >= 32
  {
    FromBits(bits[..8]) == 0x42 && FromBits(bits[8..16]) == 0x5A && FromBits(bits[16..24]) == 0x68
  }

  lemma LettersPass(bits: Bits)
    requires |bits| >= 32 && Letters(bits)
    ensures Advance(Magic(1), bits) == Advance(Level, bits[24..])
  {
    hide FromBits, Advance;
    Later(bits, 8);
    Later(bits, 16);
    MagicStep(1, bits);
    MagicStep(2, bits[8..]);
    MagicStep(3, bits[16..]);
  }

  lemma LettersStop(bits: Bits)
    requires |bits| >= 32 && !Letters(bits)
    ensures Advance(Magic(1), bits).0 == Stop(DataErrorMagic)
  {
    hide FromBits, Advance;
    MagicStep(1, bits);
    if FromBits(bits[..8]) == 0x42 {
      Later(bits, 8);
      MagicStep(2, bits[8..]);
      if FromBits(bits[8..16]) == 0x5A {
        Later(bits, 16);
        MagicStep(3, bits[16..]);
      }
    }
  }

  lemma HeaderBytes(bits: Bits)
    requires |bits| >= 32
    ensures bits[..24] == ToBits(0x425A68, 24) <==> Letters(bits)
  {
    hide ToBits, FromBits;
    var a, b, c := bits[..8], bits[8..16], bits[16..24];
    assert bits[..24] == a + b + c;
    Pow2Values();
    FromToBits(0x42, 8);
    FromToBits(0x5A, 8);
    FromToBits(0x68, 8);
    ToFromBits(a);
    ToFromBits(b);
    ToFromBits(c);
    TwoBytes(0x42, 0x5A, 8);
    TwoBytes(0x425A, 0x68, 16);
    var h := ToBits(0x425A68, 24);
    assert h == ToBits(0x42, 8) + ToBits(0x5A, 8) + ToBits(0x68, 8) by { FromNothing(0x5A); FromNothing(0x68); }
    assert h[..8] == ToBits(0x42, 8) && h[8..16] == ToBits(0x5A, 8) && h[16..24] == ToBits(0x68, 8);
    assert bits[..24][..8] == a && bits[..24][8..16] == b && bits[..24][16..24] == c;
  }

  /** The magic error is reported exactly for streams that do not begin with BZh
      and a digit from 1 to 9, and for nothing else. */
  lemma HeaderChecked(table: CrcTable, bits: Bits)
    requires |bits| >= 32
    ensures StreamRoundTrip.Decode(table, bits).1 == Failed(DataErrorMagic) <==> !GoodHeader(bits)
  {
    hide ToBits, FromBits, Advance, Step, Letters;
    HeaderBytes(bits);
    var r := Advance(Magic(1), bits);
    MagicVerdict(table, r.1);
    if Letters(bits) {
      LettersPass(bits);
      Later(bits, 24);
      LevelStep(bits[24..]);
      if 0x31 <= FromBits(bits[24..32]) <= 0x39 {
        var s := BlkHdr(FromBits(bits[24..32]) - 0x30, 1);
        assert StreamRoundTrip.Decode(table, bits) == DecodeFrom(table, s, bits[32..], 0);
        NoMagicError(table, s, bits[32..], 0);
      }
    } else {
      LettersStop(bits);
    }
  }
}
