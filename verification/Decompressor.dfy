/** BZ2_decompress's bit reservoir and BZ2_bzDecompress's loop, for input and
    output in any pieces (decompress.c 43-72, bzlib.c 808-858). */
module Decompressor {
  import opened Arith
  import opened Bits
  import opened CountingSort
  import opened Rotations
  import opened InverseBwt
  import opened BlockCrc
  import opened Streams
  import opened BlockImage
  import opened DecoderMachine
  import opened Histogram
  import opened DecoderInvariant
  import opened DecoderBounds
  import opened BlockReader
  import opened StreamRoundTrip
  import RunLength
  import OutputStage

  // ---------- The bit reservoir ----------

  lemma HalfMod(v: nat, p: nat)
    requires p >= 1
    ensures v % (2 * p) == 2 * (v / 2 % p) + v % 2
  {
    DivDef(v / 2, p);
    Double(v / 2 / p, p);
    DivUnique(v, 2 * p, v / 2 / p, 2 * (v / 2 % p) + v % 2);
  }

  lemma {:induction false} LowValue(v: nat, n: nat)
    ensures FromBits(ToBits(v, n)) == v % Pow2(n)
  {
    if n > 0 {
      LowValue(v / 2, n - 1);
      assert ToBits(v, n)[..n - 1] == ToBits(v / 2, n - 1);
      HalfMod(v, Pow2(n - 1));
    }
  }

  lemma SameLow(a: nat, b: nat, n: nat)
    requires a % Pow2(n) == b % Pow2(n)
    ensures ToBits(a, n) == ToBits(b, n)
  {
    LowValue(a, n);
    LowValue(b, n);
    ToFromBits(ToBits(a, n));
    ToFromBits(ToBits(b, n));
  }

  lemma DropHigh(q: nat, r: nat, p: nat, m: nat, c: nat)
    requires p >= 1
    ensures (q * (m * p) + r + c) % p == (r + c) % p
  {
    DivDef(r + c, p);
    Distribute(q * m, (r + c) / p, p);
    assert q * (m * p) == q * m * p;
    DivUnique(q * (m * p) + r + c, p, q * m + (r + c) / p, (r + c) % p);
  }

  /** `bsBuff << 8 | byte` appends eight bits; what falls off the top of the
      word was read before. */
  lemma ShiftIn(buff: nat, live: nat, c: Byte)
    requires live + 8 <= 32
    ensures ToBits(buff * 256 % WORD + c, live + 8) == ToBits(buff, live) + PutByte(c)
  {
    hide ToBits, Pow2;
    Pow2Values();
    Pow2Add(16, 16);
    Pow2Add(24 - live, live + 8);
    DivDef(buff * 256, WORD);
    var x := buff * 256;
    DropHigh(x / WORD, x % WORD, Pow2(live + 8), Pow2(24 - live), c);
    SameLow(x % WORD + c, x + c, live + 8);
    ToBitsConcat(buff, live, c, 8);
  }

  /** `(bsBuff >> (bsLive - n)) & mask` are the n oldest bits. */
  lemma TakeTop(buff: nat, live: nat, n: nat)
    requires n <= live
    ensures FromBits(ToBits(buff, live)[..n]) == buff / Pow2(live - n) % Pow2(n)
    ensures ToBits(buff, live)[n..] == ToBits(buff, live - n)
  {
    hide ToBits, FromBits, Pow2;
    var k := live - n;
    ToBitsPrefix(buff, live, k);
    LowValue(buff / Pow2(k), n);
    DivDef(buff, Pow2(k));
    ToBitsConcat(buff / Pow2(k), n, buff % Pow2(k), k);
    ModMod(buff, Pow2(k));
    SameLow(buff, buff % Pow2(k), k);
    assert (ToBits(buff / Pow2(k), n) + ToBits(buff % Pow2(k), k))[n..] == ToBits(buff % Pow2(k), k);
  }

  lemma ModMod(v: nat, p: nat)
    requires p >= 1
    ensures v % p % p == v % p
  {
    DivDef(v, p);
    DivUnique(v % p, p, 0, v % p);
  }

  lemma FirstByte(s: seq<nat>)
    requires s != []
    ensures PutBytes(s) == PutByte(s[0]) + PutBytes(s[1..])
  {
  }

  lemma AdvanceStep(s: State, bits: Bits)
    requires Reads(s) && |bits| >= Need(s)
    ensures Advance(s, bits) == Advance(Step(s, FromBits(bits[..Need(s)])), bits[Need(s)..])
  {
  }

  // ---------- Tables for the output stage ----------

  /** cftab, as summed up while the block was read, counts its bytes. */
  lemma SumsAreCounts(cftab: seq<nat>, b: Block)
    requires |cftab| == 257 && forall k :: 0 <= k <= 256 ==> cftab[k] == Cftab(Hist(b), k)
    ensures Counts(cftab, b)
  {
    hide Cftab, CountBelow, Hist;
    HistSize(b);
    forall c | 0 <= c <= 256 ensures cftab[c] == CountBelow(b, c, |b|) {
      CftabCounts(b, c);
    }
  }

  lemma HistSize(b: Block)
    ensures |Hist(b)| == 256
  {
  }

  /** The end of BZ2_decompress: T^(-1), fast or small, over the bytes read, and
      the first byte. */
  method NewStage(small: bool, randomised: bool, table: CrcTable, level: nat, origPtr: nat, nblock: nat, tt: array<nat>,
                  ll16: array<nat>, ll4: array<Byte>, cftab: array<nat>, ghost bytes: Block)
    returns (stage: OutputStage.DState)
    requires origPtr < nblock == |bytes| <= 100000 * level <= 900000 && Counts(cftab[..], bytes)
    requires tt != cftab && ll16 != cftab && ll4 as object !in {cftab, ll16}
    requires var a := if small then ll16 else tt; nblock <= a.Length && forall k :: 0 <= k < nblock ==> a[k] == bytes[k]
    requires small ==> (nblock + 1) / 2 <= ll4.Length
    modifies tt, ll16, ll4, cftab
    ensures fresh(stage) && stage.Valid() && stage.last == bytes && stage.o == origPtr && stage.crcTable == table
    ensures stage.nblockUsed == 1 && stage.stateOutLen == 0 && stage.calculatedBlockCRC == INITIAL && stage.out == []
    ensures stage.smallDecompress == small && stage.blockRandomised == randomised && stage.tt == tt && stage.ll16 == ll16 && stage.ll4 == ll4 && stage.cftab == cftab
  {
    hide Counts, FastTable, RowTable, Reversed, Rows;
    if small {
      var cftabCopy := new nat[257];
      CountsSize(cftab[..], bytes);
      for i := 0 to 257
        invariant cftabCopy[..i] == cftab[..i]
        invariant forall k :: 0 <= k < nblock ==> ll16[k] == bytes[k]
        invariant Counts(cftab[..], bytes)
      {
        cftabCopy[i] := cftab[i];
      }
      assert cftabCopy[..] == cftab[..];
      BuildRows(ll16, ll4, cftabCopy, nblock, bytes);
      ReversePointers(ll16, ll4, origPtr, bytes);
    } else {
      BuildFast(tt, cftab, nblock, bytes);
    }
    stage := new OutputStage.DState(small, randomised, origPtr, tt, ll16, ll4, cftab, nblock, level, table, bytes);
  }

  lemma CountsSize(cftab: seq<nat>, b: Block)
    requires Counts(cftab, b)
    ensures |cftab| == 257
  {
  }

  // ---------- Outcomes ----------

  datatype Answer = Ok | StreamOver | Refused(code: ReturnCode) | SequenceError

  /** What an answer says of the data and verdict o it ends, with `emitted`
      delivered. */
  ghost predicate Answered(answer: Answer, small: bool, o: (Block, Verdict), emitted: Block) {
    && (answer == StreamOver ==> o == (emitted, Ended))
    && (answer.Refused? ==> o.1 == StreamRoundTrip.Failed(answer.code) && emitted <= o.0)
    && (answer.Refused? && (small || answer.code != DataError) ==> emitted == o.0)
  }

  /** After `emitted`, what was `o` has become `o2`: the same end, and the data
      still to come is that part less. */
  ghost predicate Follows(o: (Block, Verdict), emitted: Block, o2: (Block, Verdict)) {
    o.1 == o2.1 && o.0 == emitted + o2.0
  }

  lemma FollowsTrans(a: (Block, Verdict), e: Block, b: (Block, Verdict), f: Block, c: (Block, Verdict))
    requires Follows(a, e, b) && Follows(b, f, c)
    ensures Follows(a, e + f, c)
  {
    assert e + (f + c.0) == e + f + c.0;
  }

  function Concat(pieces: seq<seq<Byte>>): seq<Byte>
    decreases |pieces|
  {
    if pieces == [] then [] else pieces[0] + Concat(pieces[1..])
  }

  lemma NextBytes(nextIn: seq<Byte>, pieces: seq<seq<Byte>>, i: nat)
    requires i < |pieces|
    ensures PutBytes(nextIn) + PutBytes(Concat(pieces[i..])) == PutBytes(nextIn + pieces[i]) + PutBytes(Concat(pieces[i + 1..]))
  {
    hide PutBytes;
    assert pieces[i..][1..] == pieces[i + 1..];
    PutBytesConcat(nextIn, pieces[i]);
    PutBytesConcat(pieces[i], Concat(pieces[i + 1..]));
  }

  class Decoder {
    const table: CrcTable
    const strm: BzStream
    const reader: Reader
    var bsBuff: nat
    var bsLive: nat
    var combinedCRC: bv32
    var stage: OutputStage.DState?

    /** BZ2_bzDecompressInit. */
    constructor (strm: BzStream, small: bool, table: CrcTable)
      ensures Valid() && this.strm == strm && this.table == table && reader.small == small
      ensures fresh(reader) && fresh(reader.Arrays())
      ensures reader.s == Magic(1) && Held() == [] && combinedCRC == 0 && stage == null
    {
      hide Reader.Tied, Reader.Shape, Reader.Arrays, Reader.Delivering;
      this.strm, this.table := strm, table;
      reader := new Reader(small);
      bsBuff, bsLive, combinedCRC, stage := 0, 0, 0, null;
    }

    ghost predicate Machine()
      reads this`bsBuff, this`bsLive, reader`s, reader`tt, reader`ll16, reader`ll4, reader`inUse16, reader`inUse,
        reader`seqToUnseq, reader`unzftab, reader`len, reader`limit, reader`base, reader`perm, reader`minLens
    {
      Sane(reader.s) && Counted(reader.s) && Bounded(reader.s) && reader.Shape() && bsLive <= 32 && bsBuff < WORD
    }

    /** Bits fetched but not yet used. */
    ghost function Held(): Bits
      reads this`bsBuff, this`bsLive
    {
      ToBits(bsBuff, bsLive)
    }

    /** A GET_BITS that finds enough bits, and the code up to the next one. */
    method Take(v: Locals, n: nat, ghost f: Bits) returns (v': Locals)
      requires Machine() && reader.Tied(v) && Reads(reader.s) && bsLive >= n == Need(reader.s)
      modifies this`bsLive, reader, reader.mtf.mtfa, reader.mtf.mtfbase, reader.cftab, reader.tt, reader.ll16
      ensures Machine() && reader.Tied(v') && bsLive < old(bsLive) && reader.save == old(reader.save)
      ensures Advance(reader.s, Held() + f) == old(Advance(reader.s, Held() + f))
      ensures fresh(reader.Arrays() - old(reader.Arrays()))
    {
      hide Step, Sane, Counted, Bounded, ToBits, FromBits, Advance, Pow2, Reader.Tied, Reader.Shape;
      TakeTop(bsBuff, bsLive, n);
      var bits := bsBuff / Pow2(bsLive - n) % Pow2(n);
      ghost var all := Held() + f;
      assert all[..n] == Held()[..n] && all[n..] == Held()[n..] + f;
      AdvanceStep(reader.s, all);
      StepSane(reader.s, bits);
      StepCounted(reader.s, bits);
      StepBounded(reader.s, bits);
      bsLive := bsLive - n;
      v' := reader.Arm(v, bits);
    }

    /** The other turn of GET_BITS: fetch a byte. */
    method Fetch(ghost f: Bits)
      requires Machine() && Reads(reader.s) && bsLive < Need(reader.s) && strm.nextIn != []
      modifies this`bsBuff, this`bsLive, strm`nextIn
      ensures Machine() && bsLive == old(bsLive) + 8 && |strm.nextIn| == |old(strm.nextIn)| - 1
      ensures Held() + (PutBytes(strm.nextIn) + f) == old(Held() + (PutBytes(strm.nextIn) + f))
    {
      hide Step, Sane, Counted, Bounded, ToBits, PutByte, PutBytes, Reader.Shape;
      SaneNeed(reader.s);
      var c := strm.nextIn[0];
      FirstByte(strm.nextIn);
      ShiftIn(bsBuff, bsLive, c);
      ghost var held, rest := Held(), PutBytes(strm.nextIn[1..]);
      bsBuff := bsBuff * 256 % WORD + c;
      bsLive := bsLive + 8;
      strm.nextIn := strm.nextIn[1..];
      assert held + (PutByte(c) + rest + f) == held + PutByte(c) + (rest + f);
      WordStaysSmall(bsBuff, c);
    }

    /** BZ2_decompress: restore the locals, run until a block has been read, the
        stream ends or fails, or input is out, and save the locals. */
    method Decompress(ghost f: Bits)
      requires Machine() && reader.Tied(reader.save)
      modifies this`bsBuff, this`bsLive, reader, reader.Arrays(), strm`nextIn
      ensures Machine() && reader.Tied(reader.save) && fresh(reader.Arrays() - old(reader.Arrays()))
      ensures Advance(reader.s, Held() + (PutBytes(strm.nextIn) + f))
           == old(Advance(reader.s, Held() + (PutBytes(strm.nextIn) + f)))
      ensures Reads(reader.s) ==> strm.nextIn == [] && bsLive < Need(reader.s)
      ensures |strm.nextIn| <= |old(strm.nextIn)|
      ensures old(Reads(reader.s)) && !Reads(reader.s) ==> 9 * |strm.nextIn| + bsLive < old(9 * |strm.nextIn| + bsLive)
    {
      hide Machine, Held, PutBytes, Advance, Need, Step, Reads, Reader.Tied;
      var v := reader.save;
      reader.WantedIsNeed(v);
      ReadingState();
      while !reader.state.XOutput? && !reader.state.XIdle?
        invariant Machine() && reader.Tied(v) && fresh(reader.Arrays() - old(reader.Arrays()))
        invariant Reads(reader.s) <==> !reader.state.XOutput? && !reader.state.XIdle?
        invariant Advance(reader.s, Held() + (PutBytes(strm.nextIn) + f))
               == old(Advance(reader.s, Held() + (PutBytes(strm.nextIn) + f)))
        invariant 9 * |strm.nextIn| + bsLive < old(9 * |strm.nextIn| + bsLive) || (Reads(reader.s) <==> old(Reads(reader.s)))
        invariant 9 * |strm.nextIn| + bsLive <= old(9 * |strm.nextIn| + bsLive) && |strm.nextIn| <= |old(strm.nextIn)|
        decreases 9 * |strm.nextIn| + bsLive
      {
        reader.WantedIsNeed(v);
        if bsLive >= reader.Wanted(v) {
          v := Take(v, reader.Wanted(v), PutBytes(strm.nextIn) + f);
          reader.WantedIsNeed(v);
          ReadingState();
        } else {
          if strm.nextIn == [] { break; }
          Fetch(f);
        }
      }
      reader.Save(v);
    }

    /** Resumability: input handed over in any pieces, one call each, leaves the
        reader standing for the state, and with the unread bits, that all of it
        at once leads to. What a call needs of the calls before it is in the
        fields, the save area and the reservoir. */
    method DecompressPieces(pieces: seq<seq<Byte>>)
      requires Machine() && reader.Tied(reader.save) && strm.nextIn == [] && pieces != []
      modifies this`bsBuff, this`bsLive, reader, reader.Arrays(), strm`nextIn
      ensures Machine() && reader.Tied(reader.save)
      ensures (reader.s, Held() + PutBytes(strm.nextIn))
           == Advance(old(reader.s), old(Held()) + PutBytes(Concat(pieces)))
    {
      hide Machine, Held, PutBytes, Advance, Need, Step, Reader.Tied, Reader.Arrays;
      ghost var goal := Advance(reader.s, Held() + PutBytes(Concat(pieces)));
      assert pieces[0..] == pieces;
      NothingRead();
      var i := 0;
      while i < |pieces|
        invariant i <= |pieces| && Machine() && reader.Tied(reader.save)
        invariant forall o :: o in reader.Arrays() && o !in old(reader.Arrays()) ==> fresh(o)
        invariant Advance(reader.s, Held() + (PutBytes(strm.nextIn) + PutBytes(Concat(pieces[i..])))) == goal
        invariant i > 0 && Reads(reader.s) ==> strm.nextIn == [] && bsLive < Need(reader.s)
      {
        ghost var arrays := reader.Arrays();
        NextBytes(strm.nextIn, pieces, i);
        strm.nextIn := strm.nextIn + pieces[i];
        i := i + 1;
        label Before:
        Decompress(PutBytes(Concat(pieces[i..])));
        forall o | o in reader.Arrays() && o !in old(reader.Arrays()) ensures fresh(o) {
          if o !in arrays { assert fresh@Before(o); }
        }
      }
      NothingLeft(pieces);
    }

    lemma NothingRead()
      requires strm.nextIn == []
      ensures forall f: Bits :: PutBytes(strm.nextIn) + f == f
    {
      forall f: Bits ensures PutBytes(strm.nextIn) + f == f {
        assert [] + f == f;
      }
    }

    /** With all pieces handed over, the machine goes no further. */
    lemma NothingLeft(pieces: seq<seq<Byte>>)
      requires Reads(reader.s) ==> strm.nextIn == [] && bsLive < Need(reader.s)
      ensures var rest := Held() + (PutBytes(strm.nextIn) + PutBytes(Concat(pieces[|pieces|..])));
              rest == Held() + PutBytes(strm.nextIn) && Advance(reader.s, rest) == (reader.s, rest)
    {
      assert PutBytes(strm.nextIn) + [] == PutBytes(strm.nextIn);
    }

    // ---------- The output state ----------

    /** The stage delivers the block the reader has read. */
    ghost predicate Staged()
      reads this`stage, reader`s, stage, StageArrays()
    {
      && reader.s.Output? && stage != null && stage.Valid()
      && stage.last == reader.s.bytes && stage.o == reader.s.h.origPtr && stage.crcTable == table
      && stage.smallDecompress == reader.small && stage.blockRandomised == reader.s.h.randomised
    }

    ghost function StageArrays(): set<object>
      reads this`stage
    {
      if stage == null then {} else {stage.tt as object, stage.ll16, stage.ll4, stage.cftab}
    }

    ghost predicate Valid()
      reads this, reader, reader.Arrays(), stage, StageArrays()
    {
      && Machine()
      && (if reader.s.Output? then reader.Delivering() && Staged()
          else reader.Tied(reader.save))
    }

    /** The label of the reader tells in which state the machine is. */
    lemma LabelTells()
      requires Valid()
      ensures reader.s.Output? <==> reader.state.XOutput?
      ensures reader.s.Stop? <==> reader.state.XIdle?
      ensures reader.s.Stop? ==> reader.state.code == reader.s.code
      ensures reader.s.Output? ==> reader.s.h == Head(reader.blockSize100k, reader.storedBlockCRC, reader.blockRandomised, reader.origPtr)
    {
      hide Machine, Staged, Reader.Tied, Reader.Buffer;
      if !reader.s.Output? {
        reader.WantedIsNeed(reader.save);
      }
    }

    /** What the input still to come makes of everything not yet delivered. */
    ghost function Outlook(f: Bits): (Block, Verdict)
      requires Valid()
      reads this, reader, reader.Arrays(), stage, StageArrays()
    {
      if reader.s.Output? then
        StageOutlook(table, reader.s.h, stage.last, stage.o, stage.nblockUsed, stage.stateOutCh, stage.stateOutLen,
                     stage.calculatedBlockCRC, Held() + f, combinedCRC)
      else DecodeFrom(table, reader.s, Held() + f, combinedCRC)
    }

    /** What NewStage needs, once a block has been read. */
    lemma StageReady()
      requires Machine() && reader.Tied(reader.save) && reader.s.Output?
      ensures reader.Delivering() && reader.origPtr == reader.s.h.origPtr
      ensures reader.blockRandomised == reader.s.h.randomised && reader.s.unzftab == Hist(reader.s.bytes)
      ensures reader.origPtr < reader.save.nblock == |reader.s.bytes| <= 100000 * reader.blockSize100k <= 900000
      ensures Counts(reader.cftab[..], reader.s.bytes)
      ensures reader.tt != reader.cftab && reader.ll16 != reader.cftab && reader.ll4 as object !in {reader.cftab, reader.ll16}
      ensures reader.small ==> (reader.save.nblock + 1) / 2 <= reader.ll4.Length
      ensures reader.save.nblock <= reader.Bytes().Length
      ensures forall k :: 0 <= k < reader.save.nblock ==> reader.Bytes()[k] == reader.s.bytes[k]
    {
      hide Hist, Reader.Tied, Bounded;
      reader.BlockRead(reader.save);
      SumsAreCounts(reader.cftab[..], reader.s.bytes);
    }

    /** The rest of BZ2_decompress once a block has been read. */
    method Prepare(ghost f: Bits)
      requires Machine() && reader.Tied(reader.save) && reader.s.Output?
      modifies this`stage, reader.tt, reader.ll16, reader.ll4, reader.cftab
      ensures Valid() && fresh(stage)
      ensures Outlook(f) == DecodeFrom(table, reader.s, Held() + f, combinedCRC)
    {
      hide Hist, DecodeFrom, StageOutlook, ToBits, Machine, Counts, Reader.Tied, Reader.Delivering;
      StageReady();
      stage := NewStage(reader.small, reader.blockRandomised, table, reader.blockSize100k, reader.origPtr, reader.save.nblock,
                        reader.tt, reader.ll16, reader.ll4, reader.cftab, reader.s.bytes);
      FreshOutlook(table, reader.s.h, reader.s.bytes, reader.s.unzftab, stage.stateOutCh, Held() + f, combinedCRC);
    }

    /** Room and bytes written balance. */
    ghost predicate Wrote(out0: seq<Byte>, room0: nat, emitted: Block)
      reads strm
    {
      strm.output == out0 + emitted && strm.availOut + |emitted| == room0
    }

    /** The current block is out: its checksum decides. */
    method FinishVisit(ghost f: Bits) returns (answer: Answer)
      requires Valid() && reader.s.Output? && stage.Finished()
      modifies reader`state, reader`s, this`combinedCRC
      ensures answer == Ok ==> Valid() && Reads(reader.s) && Outlook(f) == old(Outlook(f))
      ensures answer != Ok ==> answer == Refused(DataError) && old(Outlook(f)) == ([], StreamRoundTrip.Failed(DataError))
    {
      hide Sane, Counted, Bounded, ToBits, DecodeFrom, StageOutlook, Word, Combine, OutputStage.DState.Tables,
        Reader.Tied, Reader.Buffer, Reader.Shape, OutputStage.Due, OutputStage.Clean;
      FinishedOutlook(table, reader.s.h, stage.last, stage.o, stage.stateOutCh, stage.calculatedBlockCRC, Held() + f, combinedCRC);
      var sum := Finalise(stage.calculatedBlockCRC);
      if Word(sum) != reader.storedBlockCRC { return Refused(DataError); }
      combinedCRC := Combine(combinedCRC, sum);
      NextIsSane(reader.s);
      reader.NextBlock();
      answer := Ok;
    }

    /** Emit what there is room for. */
    method EmitVisit(ghost f: Bits) returns (corrupt: bool, ghost emitted: Block)
      requires Valid() && reader.s.Output?
      modifies strm`output, strm`availOut, stage
      ensures Wrote(old(strm.output), old(strm.availOut), emitted)
      ensures !corrupt ==> Valid() && Follows(old(Outlook(f)), emitted, Outlook(f))
      ensures !corrupt ==> stage.Finished() || strm.availOut == 0
      ensures corrupt ==> old(Outlook(f)).1 == StreamRoundTrip.Failed(DataError)
      ensures corrupt ==> emitted <= old(Outlook(f)).0 && (reader.small ==> emitted == old(Outlook(f)).0)
    {
      hide Machine, ToBits, DecodeFrom, StageOutlook, OutputStage.Clean, OutputStage.Due,
        OutputStage.DState.Tables, OutputStage.DState.Placed, OutputStage.Pos, Reader.Tied, Reader.Delivering, Follows;
      ghost var used0, ch0, len0, crc0 := stage.nblockUsed, stage.stateOutCh, stage.stateOutLen, stage.calculatedBlockCRC;
      var filled := |stage.out|;
      corrupt, emitted := stage.Emit(strm.availOut);
      var piece := stage.out[filled..];
      strm.output := strm.output + piece;
      strm.availOut := strm.availOut - |piece|;
      if corrupt {
        UncleanOutlook(table, reader.s.h, stage.last, stage.o, used0, ch0, len0, crc0, Held() + f, combinedCRC);
      } else {
        LaterOutlook(table, reader.s.h, stage.last, stage.o, used0, ch0, len0, crc0, stage.nblockUsed, stage.stateOutCh,
                     stage.stateOutLen, stage.calculatedBlockCRC, emitted, Held() + f, combinedCRC);
      }
    }

    /** The output half of BZ2_bzDecompress's loop. */
    method OutputVisit(ghost f: Bits) returns (answer: Answer, goOn: bool, ghost emitted: Block)
      requires Valid() && reader.s.Output?
      modifies reader`state, reader`s, this`combinedCRC, strm`output, strm`availOut, stage
      ensures Wrote(old(strm.output), old(strm.availOut), emitted)
      ensures answer == Ok ==> Valid() && Follows(old(Outlook(f)), emitted, Outlook(f))
      ensures answer == Ok && goOn ==> Reads(reader.s)
      ensures answer == Ok && !goOn ==> strm.availOut == 0 && !reader.s.Stop?
      ensures answer != Ok ==> answer == Refused(DataError) && old(Outlook(f)).1 == StreamRoundTrip.Failed(DataError)
      ensures answer != Ok ==> emitted <= old(Outlook(f)).0 && (reader.small ==> emitted == old(Outlook(f)).0)
    {
      hide Machine, Outlook, Reader.Tied, Reader.Delivering, Reads, OutputStage.DState.Valid;
      ghost var before := Outlook(f);
      var corrupt;
      corrupt, emitted := EmitVisit(f);
      if corrupt { return Refused(DataError), false, emitted; }
      if stage.Finished() {
        ghost var after := Outlook(f);
        answer := FinishVisit(f);
        goOn := answer == Ok;
      } else {
        answer, goOn := Ok, false;
      }
    }

    /** All the input there is, and the future after it. */
    ghost function Unread(f: Bits): Bits
      reads strm`nextIn
    {
      PutBytes(strm.nextIn) + f
    }

    /** On a new block, get ready to deliver it. */
    method Settle(ghost f: Bits)
      requires Machine() && reader.Tied(reader.save)
      modifies this`stage, reader.tt, reader.ll16, reader.ll4, reader.cftab
      ensures Valid() && (stage == old(stage) || fresh(stage))
      ensures Outlook(f) == DecodeFrom(table, reader.s, Held() + f, combinedCRC)
    {
      hide Machine, ToBits, DecodeFrom, Reader.Tied, StageOutlook;
      reader.WantedIsNeed(reader.save);
      if reader.state.XOutput? {
        reader.BlockRead(reader.save);
        Prepare(f);
      }
    }

    /** The input half of BZ2_bzDecompress's loop. */
    method InputVisit(ghost f: Bits)
      requires Valid() && Reads(reader.s)
      modifies this`bsBuff, this`bsLive, this`stage, reader, reader.Arrays(), strm`nextIn
      ensures Valid() && (stage == old(stage) || fresh(stage)) && fresh(reader.Arrays() - old(reader.Arrays()))
      ensures Outlook(Unread(f)) == old(Outlook(Unread(f)))
      ensures Reads(reader.s) ==> strm.nextIn == [] && bsLive < Need(reader.s)
      ensures !Reads(reader.s) ==> 9 * |strm.nextIn| + bsLive < old(9 * |strm.nextIn| + bsLive)
      ensures unchanged(strm`output, strm`availOut)
    {
      hide Machine, Need, ToBits, PutBytes, Advance, DecodeFrom, Reader.Tied, Staged, StageOutlook;
      ghost var s0, bits0 := reader.s, Held() + Unread(f);
      Decompress(f);
      SameAdvance(table, s0, bits0, reader.s, Held() + Unread(f), combinedCRC);
      Settle(Unread(f));
    }

    /** After the input half: the stream may have ended, or failed. */
    method EndVisit(ghost f: Bits) returns (answer: Answer)
      requires Valid() && reader.s.Stop?
      ensures answer == StreamOver || answer.Refused?
      ensures Answered(answer, reader.small, old(Outlook(f)), [])
    {
      hide Machine, Reader.Tied, DecodeFrom, Outlook;
      LabelTells();
      StopOutlook(f);
      var code := reader.state.code;
      answer := if !code.StreamEnd? then Refused(code)
                else if code.combined != Word(combinedCRC) then Refused(DataError)
                else StreamOver;
    }

    lemma ReadingState()
      ensures Reads(reader.s) <==> !reader.s.Output? && !reader.s.Stop?
    {
    }

    /** The input half of BZ2_bzDecompress's loop, and its returns. */
    method ReadOn(ghost f: Bits) returns (done: bool, answer: Answer)
      requires Valid() && Reads(reader.s)
      modifies this`bsBuff, this`bsLive, this`stage, reader, reader.Arrays(), strm`nextIn
      ensures !done ==> answer == Ok && 9 * |strm.nextIn| + bsLive < old(9 * |strm.nextIn| + bsLive)
      ensures answer == Ok ==>
        && Valid() && Outlook(Unread(f)) == old(Outlook(Unread(f))) && !reader.s.Stop?
        && (stage == old(stage) || fresh(stage)) && fresh(reader.Arrays() - old(reader.Arrays()))
      ensures answer == Ok && done ==> strm.nextIn == [] && Reads(reader.s) && bsLive < Need(reader.s)
      ensures answer != SequenceError && unchanged(strm`output, strm`availOut)
      ensures Answered(answer, reader.small, old(Outlook(Unread(f))), [])
    {
      hide Valid, Outlook, Need, Unread, Reads, Reader.Arrays;
      InputVisit(f);
      LabelTells();
      ReadingState();
      if reader.state.XIdle? {
        answer := EndVisit(Unread(f));
        done := true;
      } else {
        answer, done := Ok, !reader.state.XOutput?;
      }
    }

    /** The output half of BZ2_bzDecompress's loop, in whatever state. */
    method Emission(ghost f: Bits) returns (done: bool, answer: Answer, ghost emitted: Block)
      requires Valid() && !reader.s.Stop?
      modifies reader`state, reader`s, this`combinedCRC, strm`output, strm`availOut, stage
      ensures Wrote(old(strm.output), old(strm.availOut), emitted)
      ensures answer == Ok ==> Valid() && Follows(old(Outlook(f)), emitted, Outlook(f)) && !reader.s.Stop?
      ensures if done then answer == Ok ==> strm.availOut == 0 else answer == Ok && Reads(reader.s)
      ensures answer != SequenceError && Answered(answer, reader.small, old(Outlook(f)), emitted)
    {
      hide Valid, Outlook, Reads, Follows;
      done, answer, emitted := false, Ok, [];
      LabelTells();
      ReadingState();
      FollowsSelf(Outlook(f));
      if reader.state.XOutput? {
        var goOn;
        answer, goOn, emitted := OutputVisit(f);
        done := answer != Ok || !goOn;
        ReadingState();
      }
    }

    /** Once around BZ2_bzDecompress's loop. */
    method Turn(ghost f: Bits) returns (done: bool, answer: Answer, ghost emitted: Block)
      requires Valid() && !reader.s.Stop?
      modifies this, reader, reader.Arrays(), strm`nextIn, strm`output, strm`availOut, stage
      ensures Wrote(old(strm.output), old(strm.availOut), emitted)
      ensures !done ==> answer == Ok && 9 * |strm.nextIn| + bsLive < old(9 * |strm.nextIn| + bsLive)
      ensures answer == Ok ==>
        && Valid() && Follows(old(Outlook(Unread(f))), emitted, Outlook(Unread(f))) && !reader.s.Stop?
        && (stage == old(stage) || fresh(stage)) && fresh(reader.Arrays() - old(reader.Arrays()))
      ensures answer == Ok && done ==> strm.availOut == 0 || (strm.nextIn == [] && Reads(reader.s) && bsLive < Need(reader.s))
      ensures answer != SequenceError && Answered(answer, reader.small, old(Outlook(Unread(f))), emitted)
    {
      hide Valid, Outlook, Need, Unread, Reads, Follows, Answered, Reader.Arrays;
      ghost var before := Outlook(Unread(f));
      done, answer, emitted := Emission(Unread(f));
      if done { return; }
      ghost var rest := Outlook(Unread(f));
      label Emitted:
      done, answer := ReadOn(f);
      AnsweredAfter(answer, reader.small, before, emitted, rest, []);
      assert emitted + [] == emitted;
      if answer == Ok {
        forall o | o in reader.Arrays() && o !in old(reader.Arrays()) ensures fresh(o) {
          assert fresh@Emitted(o);
        }
      }
    }

    lemma WroteNothing()
      ensures Wrote(strm.output, strm.availOut, [])
    {
    }

    lemma WroteFacts(out0: seq<Byte>, room0: nat, emitted: Block)
      requires Wrote(out0, room0, emitted)
      ensures strm.output == out0 + emitted && strm.availOut + |emitted| == room0
    {
    }

    lemma WroteMore(out0: seq<Byte>, room0: nat, emitted: Block, out1: seq<Byte>, room1: nat, part: Block)
      requires out1 == out0 + emitted && room1 + |emitted| == room0 && Wrote(out1, room1, part)
      ensures Wrote(out0, room0, emitted + part)
    {
      assert out0 + emitted + part == out0 + (emitted + part);
    }

    /** BZ2_bzDecompress, for any input and room. Whatever input f is still to
        come: what is delivered is the next part of what the stream decodes
        to; the end is reported exactly when all of it is out and every
        checksum was right, and an error exactly as the stream has one. */
    method BzDecompress(ghost f: Bits) returns (answer: Answer, ghost emitted: Block)
      requires Valid()
      modifies this, reader, reader.Arrays(), strm`nextIn, strm`output, strm`availOut, stage
      ensures answer == SequenceError <==> old(reader.s).Stop?
      ensures Wrote(old(strm.output), old(strm.availOut), emitted)
      ensures answer == Ok ==>
        && Valid() && Follows(old(Outlook(Unread(f))), emitted, Outlook(Unread(f))) && !reader.s.Stop?
        && (stage == old(stage) || fresh(stage)) && fresh(reader.Arrays() - old(reader.Arrays()))
      ensures answer == Ok ==> strm.availOut == 0 || (strm.nextIn == [] && Reads(reader.s) && bsLive < Need(reader.s))
      ensures Answered(answer, reader.small, old(Outlook(Unread(f))), emitted)
    {
      hide Valid, Outlook, Need, Unread, Reads, Follows, Wrote, Reader.Arrays;
      ghost var goal, out0, room0 := Outlook(Unread(f)), strm.output, strm.availOut;
      emitted := [];
      LabelTells();
      WroteNothing();
      if reader.state.XIdle? { return SequenceError, []; }
      FollowsSelf(goal);
      while true
        invariant Valid() && Wrote(out0, room0, emitted) && Follows(goal, emitted, Outlook(Unread(f)))
        invariant (stage == old(stage) || fresh(stage)) && fresh(reader.Arrays() - old(reader.Arrays())) && !reader.s.Stop?
        decreases 9 * |strm.nextIn| + bsLive
      {
        ghost var before, out1, room1, arrays := Outlook(Unread(f)), strm.output, strm.availOut, reader.Arrays();
        WroteFacts(out0, room0, emitted);
        var done;
        ghost var part;
        label Before:
        done, answer, part := Turn(f);
        WroteMore(out0, room0, emitted, out1, room1, part);
        AnsweredAfter(answer, reader.small, goal, emitted, before, part);
        if answer == Ok {
          FollowsTrans(goal, emitted, before, part, Outlook(Unread(f)));
          forall o | o in reader.Arrays() && o !in old(reader.Arrays()) ensures fresh(o) {
            if o !in arrays { assert fresh@Before(o); }
          }
        }
        emitted := emitted + part;
        if done { return; }
      }
    }

    lemma StopOutlook(f: Bits)
      requires Valid() && reader.s.Stop?
      ensures Outlook(f) == ([], if !reader.s.code.StreamEnd? then Failed(reader.s.code)
                                 else if reader.s.code.combined == Word(combinedCRC) then Ended else Failed(DataError))
    {
    }
  }

  lemma FollowsSelf(o: (Block, Verdict))
    ensures Follows(o, [], o)
  {
    assert [] + o.0 == o.0;
  }

  lemma AnsweredAfter(answer: Answer, small: bool, o: (Block, Verdict), emitted: Block, o2: (Block, Verdict), part: Block)
    requires Follows(o, emitted, o2) && Answered(answer, small, o2, part)
    ensures Answered(answer, small, o, emitted + part)
  {
  }

  lemma FollowsFacts(o: (Block, Verdict), emitted: Block, o2: (Block, Verdict))
    requires Follows(o, emitted, o2)
    ensures o.1 == o2.1 && o.0 == emitted + o2.0
  {
  }

  /** Two machines with the same outcome decode the same. */
  lemma SameAdvance(table: CrcTable, s: State, bits: Bits, s': State, bits': Bits, combined: bv32)
    requires Reads(s) && Advance(s', bits') == Advance(s, bits)
    ensures DecodeFrom(table, s', bits', combined) == DecodeFrom(table, s, bits, combined)
  {
    RunStops(s', bits');
  }

  lemma NextIsSane(s: State)
    requires Sane(s) && Bounded(s) && s.Output?
    ensures Sane(BlkHdr(s.h.level, 1)) && Counted(BlkHdr(s.h.level, 1)) && Bounded(BlkHdr(s.h.level, 1))
  {
  }

  lemma UncleanOutlook(table: CrcTable, h: Head, last: Block, o: nat, used: nat, ch: Byte, len: nat,
                       crc: bv32, bits: Bits, combined: bv32)
    requires o < |last| && used >= 1 && !OutputStage.Clean(last, o, h.randomised, used)
    ensures StageOutlook(table, h, last, o, used, ch, len, crc, bits, combined)
         == (OutputStage.Due(last, o, h.randomised, used, ch, len), StreamRoundTrip.Failed(DataError))
  {
    hide OutputStage.Clean, OutputStage.Due;
  }

  lemma WordStaysSmall(b: nat, c: Byte)
    ensures b * 256 % WORD + c < WORD
  {
    DivDef(b, 16777216);
    DivUnique(b * 256, WORD, b / 16777216, b % 16777216 * 256);
  }

  /** A partly delivered block: the rest of it, and then the rest of the
      stream if its checksum is right. */
  ghost function StageOutlook(table: CrcTable, h: Head, last: Block, o: nat, used: nat, ch: Byte, len: nat,
                              crc: bv32, bits: Bits, combined: bv32): (Block, Verdict)
    requires o < |last| && used >= 1
  {
    var due := OutputStage.Due(last, o, h.randomised, used, ch, len);
    if !OutputStage.Clean(last, o, h.randomised, used) then (due, StreamRoundTrip.Failed(DataError))
    else
      var sum := Finalise(UpdateAll(table, crc, due));
      if Word(sum) != h.crc then (due, StreamRoundTrip.Failed(DataError))
      else
        var r := DecodeFrom(table, BlkHdr(h.level, 1), bits, Combine(combined, sum));
        (due + r.0, r.1)
  }

  /** A fresh stage promises what decoding the whole block promises. */
  lemma FreshOutlook(table: CrcTable, h: Head, last: Block, unzftab: seq<nat>, ch: Byte, bits: Bits, combined: bv32)
    requires h.origPtr < |last|
    ensures StageOutlook(table, h, last, h.origPtr, 1, ch, 0, INITIAL, bits, combined)
         == DecodeFrom(table, Output(h, last, unzftab), bits, combined)
  {
    hide OutputStage.Clean, OutputStage.Due, RunLength.UnRle, Unsort, UpdateAll, Word, Combine;
    OutputStage.FreshReaderOwesBlock(last, h.origPtr, h.randomised, ch);
  }

  /** Delivering part of the block. */
  lemma LaterOutlook(table: CrcTable, h: Head, last: Block, o: nat, used: nat, ch: Byte, len: nat, crc: bv32,
                     used': nat, ch': Byte, len': nat, crc': bv32, emitted: Block, bits: Bits, combined: bv32)
    requires o < |last| && used >= 1 && used' >= 1
    requires OutputStage.Clean(last, o, h.randomised, used') == OutputStage.Clean(last, o, h.randomised, used)
    requires OutputStage.Due(last, o, h.randomised, used, ch, len) == emitted + OutputStage.Due(last, o, h.randomised, used', ch', len')
    requires crc' == UpdateAll(table, crc, emitted)
    ensures Follows(StageOutlook(table, h, last, o, used, ch, len, crc, bits, combined), emitted,
                    StageOutlook(table, h, last, o, used', ch', len', crc', bits, combined))
  {
    hide OutputStage.Clean, OutputStage.Due, UpdateAll, Word, Combine, DecodeFrom;
    var due' := OutputStage.Due(last, o, h.randomised, used', ch', len');
    UpdateConcat(table, crc, emitted, due');
    var r := DecodeFrom(table, BlkHdr(h.level, 1), bits, Combine(combined, Finalise(UpdateAll(table, crc', due'))));
    assert emitted + (due' + r.0) == emitted + due' + r.0;
  }

  /** The block is out: its checksum decides. */
  lemma FinishedOutlook(table: CrcTable, h: Head, last: Block, o: nat, ch: Byte, crc: bv32, bits: Bits, combined: bv32)
    requires o < |last|
    ensures StageOutlook(table, h, last, o, |last| + 1, ch, 0, crc, bits, combined) ==
      if Word(Finalise(crc)) != h.crc then ([], StreamRoundTrip.Failed(DataError))
      else DecodeFrom(table, BlkHdr(h.level, 1), bits, Combine(combined, Finalise(crc)))
  {
    hide DecodeFrom, Word, Combine;
    OutputStage.NothingDue(last, o, h.randomised, |last| + 1, ch);
    OutputStage.EmptyUpdate(table, crc);
    if Word(Finalise(crc)) == h.crc {
      var r := DecodeFrom(table, BlkHdr(h.level, 1), bits, Combine(combined, Finalise(crc)));
      assert [] + r.0 == r.0;
    }
  }
}
