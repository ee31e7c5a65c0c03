/** The compressor's state machine (bzlib.c: handle_compress, BZ2_bzCompress)
    around the run-length front end and BZ2_compressBlock. */
module Compressor {
  import opened Arith
  import opened Bits
  import opened Rotations
  import opened BlockCrc
  import opened BlockImage
  import opened BitWriter
  import opened RunFrontEnd
  import opened CompressBlock
  import opened Streams
  import Capacity
  import RunLength

  datatype Mode = Idle | Running | Flushing | Finishing
  datatype Action = RunOn | Flush | Finish | OtherAction
  datatype Result = RunOk | FlushOk | FinishOk | StreamEnd | ParamError | SequenceError
  datatype Phase = Input | Output

  // ---------- What has been sent ----------

  lemma MoreBlocks(bs: seq<Sorted>, b: Sorted, level: nat)
    requires GoodBlocks(bs, level) && GoodBlock(b, level)
    ensures GoodBlocks(bs + [b], level)
  {
    hide GoodBlock;
  }

  lemma {:induction false} BlocksSnoc(table: CrcTable, bs: seq<Sorted>, b: Sorted, level: nat)
    requires GoodBlocks(bs, level) && GoodBlock(b, level)
    ensures GoodBlocks(bs + [b], level)
    ensures BlocksBits(table, bs + [b], level) == BlocksBits(table, bs, level) + BlockBits(table, b, level)
    ensures Data(bs + [b]) == Data(bs) + b.data
    decreases |bs|
  {
    hide GoodBlock, BlockBits;
    if bs == [] {
      assert ([] + [b])[1..] == [];
    } else {
      assert (bs + [b])[1..] == bs[1..] + [b] && (bs + [b])[0] == bs[0];
      BlocksSnoc(table, bs[1..], b, level);
      MoreBlocks(bs, b, level);
      Regroup2(BlockBits(table, bs[0], level), BlocksBits(table, bs[1..], level), BlockBits(table, b, level));
    }
  }

  lemma SumsSnoc(table: CrcTable, bs: seq<Sorted>, b: Sorted)
    ensures CombineAll(Sums(table, bs + [b])) == Combine(CombineAll(Sums(table, bs)), BlockSum(table, b.data))
  {
    hide BlockSum, Combine;
    var s := Sums(table, bs + [b]);
    assert s[..|s| - 1] == Sums(table, bs);
  }

  lemma StartFacts(table: CrcTable)
    ensures Data([]) == [] && RunLength.Unpacked([]) == [] && CombineAll(Sums(table, [])) == 0 && PutBytes([]) == []
  {
  }

  /** The bits due on the wire once the header has gone out. */
  ghost function Sofar(table: CrcTable, done: seq<Sorted>, level: nat): Bits
    requires GoodBlocks(done, level)
  {
    StreamHeader(level) + BlocksBits(table, done, level)
  }

  /** A block closed because it was full: it came within 19 bytes of the announced
      size, by no more than one run. */
  ghost predicate Full(b: Sorted, level: nat) {
    100000 * level - 19 <= |b.bytes| <= 100000 * level - 15
  }

  /** Every block was closed because it was full, or at one of the cuts. */
  ghost predicate FullOrCut(done: seq<Sorted>, level: nat, cuts: set<nat>) {
    forall i :: 0 <= i < |done| ==> Full(done[i], level) || i + 1 in cuts
  }

  lemma FullGrows(done: seq<Sorted>, b: Sorted, level: nat, cuts: set<nat>, cut: bool)
    requires FullOrCut(done, level, cuts) && (cut || Full(b, level))
    ensures FullOrCut(done + [b], level, if cut then cuts + {|done + [b]|} else cuts)
  {
  }

  lemma MoreCuts(done: seq<Sorted>, level: nat, cuts: set<nat>, n: nat)
    requires FullOrCut(done, level, cuts)
    ensures FullOrCut(done, level, cuts + {n})
  {
  }

  // ---------- The machine ----------

  class EState {
    const strm: BzStream
    const fe: FrontEnd
    const w: BitStream
    const level: nat
    const nblockMAX: nat
    const workFactor: nat
    var mode: Mode
    var state: Phase
    var availInExpect: nat
    var blockNo: nat
    var combinedCRC: bv32
    var stateOutPos: nat
    /** Blocks already sent, all input consumed, and whether the trailer went out. */
    ghost var done: seq<Sorted>
    ghost var consumed: Block
    ghost var finished: bool
    ghost var pad: nat
    /** How many blocks there were when a flush or the end closed one. */
    ghost var cuts: set<nat>

    /** The bits on the wire: nothing at first, then the header and all blocks. */
    ghost function Plan(headerSent: bool): Bits
      reads this`done
    {
      if headerSent && GoodBlocks(done, level) then Sofar(fe.table, done, level) else []
    }

    /** The bytes `all`, and bits not yet a byte, are the image of the blocks sent. */
    ghost predicate Image(all: seq<Byte>)
      reads this`done, this`finished, this`pad, this`state, this`blockNo, w
    {
      && GoodBlocks(done, level) && (blockNo <= 1 && state == Input ==> done == [])
      && (if finished then PutBytes(all) == StreamBits(fe.table, done, level) + Zeros(pad) && pad < 8
          else w.Valid() && PutBytes(all) + TopBits(w.bsBuff, w.bsLive) == Plan(state == Output || blockNo > 1))
    }

    /** Everything that was ever put on the wire: bytes delivered and bytes waiting. */
    ghost predicate Wire()
      reads this`done, this`stateOutPos, this`finished, this`pad, this`state, this`blockNo, strm`output, w
    {
      stateOutPos <= |w.zbits| && Image(strm.output + w.zbits[stateOutPos..])
    }

    /** All input is in a sent block, in the current block, or in the pending run. */
    ghost predicate Accounted()
      reads this`done, this`consumed, this`combinedCRC, fe
    {
      && consumed == Data(done) + fe.Held()
      && combinedCRC == CombineAll(Sums(fe.table, done))
    }

    /** How mode, phase and pending run go together. */
    ghost predicate Control()
      reads this, fe, w
    {
      && blockNo >= 1 && stateOutPos <= |w.zbits|
      && (state == Input ==>
           && !finished && mode != Idle && w.zbits == [] && stateOutPos == 0 && fe.nblock < nblockMAX
           && (fe.stateInCh == NO_CHAR ==> fe.nblock == 0 && fe.runs == []))
      && (state == Output ==>
           && fe.runs == []
           && (fe.stateInCh == NO_CHAR ==> mode != Running && availInExpect == 0 && (finished <==> mode != Flushing))
           && (fe.stateInCh != NO_CHAR ==> !finished && mode != Idle))
      && (mode == Idle ==> finished && stateOutPos == |w.zbits|)
    }

    ghost predicate Sizes()
    {
      1 <= level <= 9 && fe.block.Length == 100000 * level && nblockMAX == 100000 * level - 19
    }

    ghost predicate Front()
      reads this`state, fe, fe.block
    {
      Pends(fe.runs, fe.stateInCh, fe.stateInLen) && (state == Input ==> fe.Valid())
    }

    ghost predicate Filled()
      reads this`done, this`cuts
    {
      FullOrCut(done, level, cuts)
    }

    /** Without any flush: only the last block of a finished stream was cut. */
    ghost predicate Straight()
      reads this`mode, this`done, this`cuts, this`finished
    {
      && mode != Flushing && (mode == Running ==> cuts == {})
      && cuts <= {|done|} && (cuts != {} ==> finished)
    }

    ghost predicate Valid()
      reads this, strm, fe, fe.block, w
    {
      Sizes() && Front() && Accounted() && Wire() && Control() && Filled()
    }

    /** BZ2_bzCompressInit. */
    constructor (strm: BzStream, blockSize100k: nat, workFactor: nat, table: CrcTable)
      requires 1 <= blockSize100k <= 9 && workFactor <= 250 && strm.output == []
      ensures Valid() && mode == Running && this.strm == strm && level == blockSize100k && fe.table == table
      ensures consumed == [] && !finished && Between() && Straight() && fresh(fe) && fresh(w) && fresh(fe.block)
    {
      hide Data, RunLength.Unpacked, CombineAll, Sums, PutBytes, RunFrontEnd.Packs, Aligned, TopBits, Sofar;
      this.strm, level, nblockMAX := strm, blockSize100k, 100000 * blockSize100k - 19;
      this.workFactor := if workFactor == 0 then 30 else workFactor;
      fe := new FrontEnd(table, 100000 * blockSize100k);
      w := new BitStream();
      mode, state, availInExpect, blockNo, combinedCRC, stateOutPos := Running, Input, 0, 1, 0, 0;
      done, consumed, finished, pad, cuts := [], [], false, 0, {};
      new;
      StartFacts(table);
      SentIsTop(w);
      assert strm.output + w.zbits[stateOutPos..] == [];
    }

    /** isempty_RL. */
    predicate IsEmptyRL()
      reads fe
    {
      !(fe.stateInCh < 256 && fe.stateInLen > 0)
    }

    /** The next input byte enters the block. */
    method TakeByte()
      requires fe.Valid() && Accounted() && fe.nblock + 5 <= fe.block.Length && strm.nextIn != []
      requires fe.stateInCh == NO_CHAR ==> fe.nblock == 0 && fe.runs == []
      modifies fe, fe.block, strm`nextIn, this`consumed
      ensures fe.Valid() && Accounted() && old(fe.nblock) <= fe.nblock <= old(fe.nblock) + 5 && fe.stateInCh != NO_CHAR
      ensures |strm.nextIn| == |old(strm.nextIn)| - 1
      ensures old(consumed) + old(strm.nextIn) == consumed + strm.nextIn
    {
      hide Data, Sums, CombineAll, RunFrontEnd.Packs, RunFrontEnd.Pends;
      var c := strm.nextIn[0];
      fe.AddCharToBlock(c);
      consumed := consumed + [c];
      strm.nextIn := strm.nextIn[1..];
    }

    /** copy_input_until_stop: `expect` is the general case. */
    method CopyInputUntilStop() returns (progress: bool)
      requires Sizes() && fe.Valid() && Accounted() && fe.nblock < nblockMAX
      requires fe.stateInCh == NO_CHAR ==> fe.nblock == 0 && fe.runs == []
      requires mode != Running ==> availInExpect <= |strm.nextIn|
      modifies fe, fe.block, strm`nextIn, this`availInExpect, this`consumed
      ensures fe.Valid() && Accounted() && fe.nblock <= nblockMAX + 4
      ensures fe.stateInCh == NO_CHAR ==> fe.nblock == 0 && fe.runs == []
      ensures |strm.nextIn| <= |old(strm.nextIn)|
      ensures old(consumed) + old(strm.nextIn) == consumed + strm.nextIn
      ensures fe.nblock >= nblockMAX || strm.nextIn == [] || (mode != Running && availInExpect == 0)
      ensures progress <==> |strm.nextIn| < |old(strm.nextIn)|
      ensures fe.nblock >= nblockMAX ==> progress
      ensures mode != Running ==> availInExpect + |old(strm.nextIn)| == old(availInExpect) + |strm.nextIn|
      ensures mode == Running ==> availInExpect == old(availInExpect)
    {
      hide Accounted, RunFrontEnd.Packs, RunFrontEnd.Pends;
      progress := false;
      while true
        invariant fe.Valid() && Accounted() && fe.nblock <= nblockMAX + 4
        invariant fe.stateInCh == NO_CHAR ==> fe.nblock == 0 && fe.runs == []
        invariant |strm.nextIn| <= |old(strm.nextIn)|
        invariant old(consumed) + old(strm.nextIn) == consumed + strm.nextIn
        invariant progress <==> |strm.nextIn| < |old(strm.nextIn)|
        invariant fe.nblock >= nblockMAX ==> progress
        invariant mode != Running ==> availInExpect + |old(strm.nextIn)| == old(availInExpect) + |strm.nextIn|
        invariant mode == Running ==> availInExpect == old(availInExpect)
        decreases |strm.nextIn|
      {
        if fe.nblock >= nblockMAX { break; }
        if strm.nextIn == [] { break; }
        if mode != Running && availInExpect == 0 { break; }
        progress := true;
        TakeByte();
        if mode != Running { availInExpect := availInExpect - 1; }
      }
    }

    lemma ByteMoves(out: seq<Byte>, z: seq<Byte>, pos: nat)
      requires pos < |z|
      ensures out + [z[pos]] + z[pos + 1..] == out + z[pos..]
    {
    }

    /** copy_output_until_stop. */
    method CopyOutputUntilStop() returns (progress: bool)
      requires Wire() && Accounted()
      modifies strm`availOut, strm`output, this`stateOutPos
      ensures Wire() && Accounted()
      ensures stateOutPos <= |w.zbits| && (strm.availOut == 0 || stateOutPos == |w.zbits|)
      ensures old(strm.output) <= strm.output
      ensures |strm.output| + strm.availOut == |old(strm.output)| + old(strm.availOut)
      ensures progress <==> |strm.output| > |old(strm.output)|
      ensures stateOutPos - old(stateOutPos) == |strm.output| - |old(strm.output)|
    {
      hide Image, Accounted;
      ghost var all, out0 := strm.output + w.zbits[stateOutPos..], strm.output;
      ghost var pos0, room0 := stateOutPos, strm.availOut;
      progress := false;
      while true
        invariant stateOutPos <= |w.zbits| && strm.output + w.zbits[stateOutPos..] == all && out0 <= strm.output
        invariant stateOutPos - pos0 == |strm.output| - |out0|
        invariant |strm.output| + strm.availOut == |out0| + room0
        invariant progress <==> |strm.output| > |out0|
        decreases strm.availOut
      {
        if strm.availOut == 0 { break; }
        if stateOutPos >= |w.zbits| { break; }
        progress := true;
        ByteMoves(strm.output, w.zbits, stateOutPos);
        strm.output := strm.output + [w.zbits[stateOutPos]];
        stateOutPos := stateOutPos + 1;
        strm.availOut := strm.availOut - 1;
      }
    }

    /** The stream header, before the first block only. */
    method PutHeaderBits()
      requires Sizes() && GoodBlocks(done, level) && w.Valid() && blockNo >= 1 && (blockNo <= 1 ==> done == [])
      requires PutBytes(strm.output) + w.Sent() == Plan(blockNo > 1)
      modifies w
      ensures w.Valid() && PutBytes(strm.output) + w.Sent() == Plan(true)
      ensures |w.Sent()| <= |old(w.Sent())| + 32
    {
      hide StreamHeader, BitStream.Valid, BitStream.Sent;
      if blockNo == 1 {
        ghost var sent := w.Sent();
        PutHeader(w, level);
        HeaderLength(level);
        assert PutBytes(strm.output) + (sent + StreamHeader(level)) == PutBytes(strm.output) + sent + StreamHeader(level);
      }
    }

    /** A non-empty block. */
    method PutBlockBits()
      requires Sizes() && fe.Valid() && Accounted() && GoodBlocks(done, level) && w.Valid()
      requires PutBytes(strm.output) + w.Sent() == Plan(true)
      requires 0 < fe.nblock <= fe.block.Length
      modifies w, fe`blockCRC, fe`runs, this`combinedCRC, this`done
      ensures GoodBlocks(done, level) && w.Valid() && PutBytes(strm.output) + w.Sent() == Plan(true)
      ensures fe.runs == [] && Accounted()
      ensures |done| == |old(done)| + 1 && done == old(done) + [done[|old(done)|]] && |done[|old(done)|].bytes| == fe.nblock
      ensures |w.Sent()| <= |old(w.Sent())| + Capacity.ImageBound(fe.nblock)
    {
      hide GoodBlock, BlockBits, StreamHeader, RunLength.UnRle, RunLength.Squeezed, Combine, BlockSum, BlocksBits, RunLength.Rep,
        RunLength.Unpacked, BitStream.Valid, BitStream.Sent, RunFrontEnd.Pends, RunFrontEnd.Packs, PutBytes, Data, CombineAll;
      ghost var held, pending := RunLength.Unpacked(fe.runs), Pending(fe.stateInCh, fe.stateInLen);
      ghost var out, sent, had := PutBytes(strm.output), w.Sent(), Data(done);
      PackedFacts(fe.block[..fe.nblock], fe.inUse, fe.blockCRC, fe.table, fe.runs);
      fe.blockCRC := Finalise(fe.blockCRC);
      combinedCRC := Combine(combinedCRC, fe.blockCRC);
      ghost var b := PutBlock(w, fe.block[..fe.nblock], fe.inUse, fe.blockCRC, level, workFactor, fe.table, held);
      BlocksSnoc(fe.table, done, b, level);
      SumsSnoc(fe.table, done, b);
      Capacity.ImageLength(fe.table, b, level);
      done := done + [b];
      fe.runs := [];
      NothingUnpacked();
      Regroup3(had, held, pending);
      Regroup2(out, sent, BlockBits(fe.table, b, level));
    }

    /** The trailer, when everything else is on the wire. */
    method PutTrailerBits()
      requires GoodBlocks(done, level) && w.Valid() && Accounted()
      requires PutBytes(strm.output) + w.Sent() == Plan(true)
      modifies w, this`pad
      ensures PutBytes(strm.output + w.zbits) == StreamBits(fe.table, done, level) + Zeros(pad) && pad < 8
      ensures 8 * |w.zbits| <= |old(w.Sent())| + 80 + 7 && w.zbits != []
    {
      hide GoodBlocks, BlocksBits, StreamHeader, Trailer, PutBytes, CombineAll, Sums, BitStream.Valid, BitStream.Sent;
      ghost var sent := w.Sent();
      pad := PutTrailer(w, combinedCRC);
      TrailerLength(combinedCRC);
      Capacity.BytesLength(w.zbits);
      PutBytesConcat(strm.output, w.zbits);
      Assemble(PutBytes(strm.output), sent, Trailer(combinedCRC), Zeros(pad));
    }

    /** Close the image: with the trailer, or leaving the last bits for later. */
    method EndImage(isLastBlock: bool)
      requires GoodBlocks(done, level) && w.Valid() && Accounted() && !finished && stateOutPos == 0
      requires PutBytes(strm.output) + w.Sent() == Plan(true)
      modifies w, this`finished, this`pad, this`state
      ensures state == Output && finished == isLastBlock && Wire()
      ensures 8 * |w.zbits| <= |old(w.Sent())| + 87 && (isLastBlock ==> w.zbits != [])
    {
      hide GoodBlocks, Sofar, PutBytes, Aligned, BitStream.Sent, TopBits, StreamBits, Data, Sums, CombineAll, Accounted;
      if isLastBlock {
        PutTrailerBits();
        finished := true;
      } else {
        SentBytes(w);
        SentIsTop(w);
        PutBytesConcat(strm.output, w.zbits);
        Regroup2(PutBytes(strm.output), PutBytes(w.zbits), TopBits(w.bsBuff, w.bsLive));
      }
      state := Output;
      assert w.zbits[stateOutPos..] == w.zbits;
    }

    /** BZ2_compressBlock, on a full block or at a cut. */
    method CompressBlock(isLastBlock: bool, ghost cut: bool)
      requires Sizes() && fe.Valid() && Accounted() && Wire() && state == Input && !finished && blockNo >= 1 && Filled()
      requires w.zbits == [] && stateOutPos == 0 && fe.nblock <= nblockMAX + 9 && (cut || nblockMAX <= fe.nblock <= nblockMAX + 4)
      modifies w, fe`blockCRC, fe`runs, this`combinedCRC, this`done, this`finished, this`pad, this`state, this`cuts
      ensures state == Output && finished == isLastBlock && fe.runs == [] && Accounted() && Wire()
      ensures isLastBlock ==> w.zbits != [] && stateOutPos == 0
      ensures Filled() && cuts == if cut then old(cuts) + {|done|} else old(cuts)
      // Block and image share arr2; the image never outgrows it.
      ensures fe.nblock + |w.zbits| <= 4 * (100000 * level + 34)
    {
      hide GoodBlocks, Sofar, PutBytes, Aligned, BitStream.Sent, TopBits, StreamBits, Data, Sums, CombineAll,
        RunFrontEnd.Packs, RunFrontEnd.Pends, RunLength.Unpacked, Capacity.ImageBound, Accounted, FullOrCut;
      assert strm.output + w.zbits[stateOutPos..] == strm.output;
      SentIsTop(w);
      FewBits(w);
      PutHeaderBits();
      if fe.nblock > 0 {
        ghost var before := done;
        PutBlockBits();
        FullGrows(before, done[|before|], level, cuts, cut);
      } else {
        PackedNothing(fe.block[..fe.nblock], fe.inUse, fe.blockCRC, fe.table, fe.runs);
        MoreCuts(done, level, cuts, |done|);
      }
      if cut { cuts := cuts + {|done|}; }
      Capacity.ImageFits(fe.nblock, level, |w.Sent()| + 87);
      EndImage(isLastBlock);
    }

    /** Input and output only move forward, and nothing is lost. */
    ghost predicate MovedFrom(consumed0: Block, in0: seq<Byte>, out0: seq<Byte>, room0: nat)
      reads this`consumed, strm
    {
      && consumed0 + in0 == consumed + strm.nextIn && |strm.nextIn| <= |in0|
      && out0 <= strm.output && |strm.output| + strm.availOut == |out0| + room0
    }

    /** While flushing or finishing, the input announced is the input there. */
    ghost predicate Expects()
      reads this, strm
    {
      mode != Running ==> availInExpect == |strm.nextIn|
    }

    /** The image of the whole stream has been delivered. */
    ghost predicate AllOut()
      reads this`finished, this`stateOutPos, w`zbits
    {
      finished && stateOutPos == |w.zbits|
    }

    /** Between calls, a finishing compressor still has something to deliver: it
        becomes idle as soon as it has not. */
    ghost predicate Between()
      reads this`mode, this`finished, this`stateOutPos, w`zbits
    {
      mode == Finishing ==> !AllOut()
    }

    /** prepare_new_block. */
    method PrepareNewBlock()
      requires Accounted() && Wire() && state == Output && !finished && blockNo >= 1
      requires stateOutPos == |w.zbits| && fe.runs == [] && Pends(fe.runs, fe.stateInCh, fe.stateInLen)
      modifies this`stateOutPos, this`blockNo, this`state, w, fe`nblock, fe`inUse, fe`blockCRC, fe`runs
      ensures Accounted() && Wire() && fe.Valid() && fe.nblock == 0 && fe.runs == []
      ensures state == Input && w.zbits == [] && stateOutPos == 0 && blockNo >= 1
    {
      hide GoodBlocks, Sofar, PutBytes, Aligned, Data, Sums, CombineAll, TopBits,
        RunFrontEnd.Packs, RunFrontEnd.Pends, RunLength.Unpacked;
      assert w.zbits[stateOutPos..] == [];
      w.zbits := [];
      stateOutPos := 0;
      assert w.zbits[stateOutPos..] == [];
      fe.PrepareNewBlock();
      blockNo := blockNo + 1;
      state := Input;
    }

    lemma HoldsPos()
      requires Wire()
      ensures stateOutPos <= |w.zbits|
    {
    }

    /** The output half of handle_compress's loop. */
    method OutputTurn() returns (progress: bool, stop: bool)
      requires Valid() && state == Output && mode != Idle && Expects()
      modifies this, strm`availOut, strm`output, w, fe`nblock, fe`inUse, fe`blockCRC, fe`runs
      ensures Valid() && mode == old(mode) && Expects()
      ensures MovedFrom(old(consumed), old(strm.nextIn), old(strm.output), old(strm.availOut))
      ensures strm.nextIn == old(strm.nextIn) && fe.stateInCh == old(fe.stateInCh)
      ensures done == old(done) && cuts == old(cuts) && finished == old(finished)
      ensures progress <==> |strm.output| > |old(strm.output)|
      ensures AllOut() ==> progress || old(AllOut())
      ensures !stop ==> state == Input && fe.stateInCh != NO_CHAR
      ensures stop ==>
        || (stateOutPos < |w.zbits| && strm.availOut == 0)
        || (mode == Finishing && finished && stateOutPos == |w.zbits|)
        || (mode == Flushing && state == Input && fe.stateInCh == NO_CHAR && availInExpect == 0)
    {
      hide Wire, Accounted, Filled, RunFrontEnd.Packs;
      HoldsPos();
      stop := true;
      progress := CopyOutputUntilStop();
      if stateOutPos < |w.zbits| { return; }
      if mode == Finishing && availInExpect == 0 && IsEmptyRL() { return; }
      PrepareNewBlock();
      if mode == Flushing && availInExpect == 0 && IsEmptyRL() { return; }
      stop := false;
    }

    method FlushPending()
      requires fe.Valid() && Accounted() && fe.nblock + 5 <= fe.block.Length
      modifies fe, fe.block
      ensures fe.Valid() && Accounted() && fe.stateInCh == NO_CHAR && fe.nblock <= old(fe.nblock) + 5
    {
      hide Data, Sums, CombineAll, RunLength.Unpacked, RunFrontEnd.Packs, RunFrontEnd.Pends;
      fe.FlushRL();
      assert RunLength.Unpacked(fe.runs) + [] == RunLength.Unpacked(fe.runs);
    }

    /** The input half. */
    method InputTurn() returns (progress: bool, stop: bool)
      requires Valid() && state == Input && Expects()
      modifies this, strm`nextIn, w, fe, fe.block
      ensures Valid() && mode == old(mode) && Expects()
      ensures MovedFrom(old(consumed), old(strm.nextIn), old(strm.output), old(strm.availOut))
      ensures progress <==> |strm.nextIn| < |old(strm.nextIn)|
      ensures stop ==> state == Input && mode == Running && strm.nextIn == []
      ensures !stop ==> state == Output && (fe.stateInCh == NO_CHAR || progress)
      ensures !AllOut() && (old(Straight()) ==> Straight())
    {
      hide Wire, Accounted, Filled, RunFrontEnd.Packs, RunFrontEnd.Pends;
      stop := false;
      progress := CopyInputUntilStop();
      if mode != Running && availInExpect == 0 {
        FlushPending();
        OnlyPending(fe.runs, fe.stateInCh, fe.stateInLen);
        CompressBlock(mode == Finishing, true);
      } else if fe.nblock >= nblockMAX {
        OnlyPending(fe.runs, fe.stateInCh, fe.stateInLen);
        CompressBlock(false, false);
      } else if strm.nextIn == [] {
        stop := true;
      }
    }

    /** handle_compress: terminates, and reports whether anything moved. */
    method HandleCompress() returns (progress: bool)
      requires Valid() && mode != Idle && Expects()
      modifies this, strm, w, fe, fe.block
      ensures Valid() && mode == old(mode) && Expects()
      ensures MovedFrom(old(consumed), old(strm.nextIn), old(strm.output), old(strm.availOut))
      ensures progress <==> |strm.nextIn| < |old(strm.nextIn)| || |strm.output| > |old(strm.output)|
      ensures mode == Running ==> strm.nextIn == [] || strm.availOut == 0
      ensures mode != Running ==>
        || (stateOutPos < |w.zbits| && strm.availOut == 0)
        || (mode == Finishing && finished && stateOutPos == |w.zbits|)
        || (mode == Flushing && state == Input && fe.stateInCh == NO_CHAR && availInExpect == 0)
      ensures AllOut() ==> progress || old(AllOut())
      ensures old(Straight()) ==> Straight()
    {
      hide Sizes, Front, Accounted, Wire, Control, Filled, Expects, AllOut;
      var progressIn, progressOut := false, false;
      while true
        invariant Valid() && mode == old(mode) && Expects()
        invariant MovedFrom(old(consumed), old(strm.nextIn), old(strm.output), old(strm.availOut))
        invariant progressIn <==> |strm.nextIn| < |old(strm.nextIn)|
        invariant progressOut <==> |strm.output| > |old(strm.output)|
        invariant AllOut() ==> progressOut || old(AllOut())
        invariant old(Straight()) ==> Straight()
        decreases |strm.nextIn|, if state == Output && fe.stateInCh == NO_CHAR then 0 else 1
      {
        var progress', stop;
        if state == Output {
          progress', stop := OutputTurn();
          progressOut := progressOut || progress';
          if stop { break; }
        }
        progress', stop := InputTurn();
        progressIn := progressIn || progress';
        if stop { break; }
      }
      progress := progressIn || progressOut;
    }

    /** The calls BZ2_bzCompress lets through to handle_compress. */
    ghost predicate Legal(action: Action)
      reads this, strm
    {
      match mode
      case Idle => false
      case Running => action != OtherAction
      case Flushing => action == Flush && availInExpect == |strm.nextIn|
      case Finishing => action == Finish && availInExpect == |strm.nextIn|
    }

    /** BZ2_bzCompress. A finishing call that leaves room ends the stream. */
    method BzCompress(action: Action) returns (r: Result)
      requires Valid() && Between()
      modifies this, strm, w, fe, fe.block
      ensures Valid() && Between()
      ensures MovedFrom(old(consumed), old(strm.nextIn), old(strm.output), old(strm.availOut))
      // An illegal call is refused and changes nothing.
      ensures !old(Legal(action)) ==>
        && r == (if old(mode) == Running then ParamError else SequenceError)
        && mode == old(mode) && consumed == old(consumed) && strm.output == old(strm.output)
      // The end is reported once, exactly when the machine becomes idle.
      ensures r == StreamEnd <==> mode == Idle && old(mode) != Idle
      ensures r == StreamEnd ==> strm.nextIn == []
      // Running fails only for want of progress; finishing waits only for room.
      ensures old(Legal(action)) && action == RunOn ==>
        && mode == Running && (strm.nextIn == [] || strm.availOut == 0)
        && r == (if |consumed| > |old(consumed)| || |strm.output| > |old(strm.output)| then RunOk else ParamError)
      ensures old(Legal(action)) && action == Finish ==>
        && r in {StreamEnd, FinishOk, SequenceError}
        && (r != StreamEnd ==> mode == Finishing)
        && (strm.availOut > 0 ==> r == StreamEnd)
        && (r == SequenceError <==> |consumed| == |old(consumed)| && |strm.output| == |old(strm.output)|)
      // A completed flush leaves no data behind: all of it is in blocks sent.
      ensures old(Legal(action)) && action == Flush ==>
        && r in {RunOk, FlushOk}
        && (r == FlushOk ==> mode == Flushing && strm.availOut == 0)
        && (r == RunOk ==> mode == Running && strm.nextIn == [] && Flushed())
      // Without a flush no block is cut but the last.
      ensures old(Straight()) && action != Flush ==> Straight()
    {
      hide Sizes, Front, Accounted, Wire, Filled, Flushed, MovedFrom;
      Stayed();
      if mode == Idle { return SequenceError; }
      if mode == Running {
        if action == RunOn {
          var moved := HandleCompress();
          Moved(old(consumed), old(strm.nextIn), old(strm.output), old(strm.availOut));
          return if moved then RunOk else ParamError;
        } else if action == Flush {
          availInExpect := |strm.nextIn|;
          mode := Flushing;
        } else if action == Finish {
          availInExpect := |strm.nextIn|;
          mode := Finishing;
        } else {
          return ParamError;
        }
      }
      if mode == Flushing {
        if action != Flush { return SequenceError; }
        if availInExpect != |strm.nextIn| { return SequenceError; }
        r := FlushCall();
        return;
      }
      if action != Finish { return SequenceError; }
      if availInExpect != |strm.nextIn| { return SequenceError; }
      r := FinishCall();
    }

    lemma Stayed()
      ensures MovedFrom(consumed, strm.nextIn, strm.output, strm.availOut)
    {
    }

    lemma Moved(consumed0: Block, in0: seq<Byte>, out0: seq<Byte>, room0: nat)
      requires MovedFrom(consumed0, in0, out0, room0)
      ensures |strm.nextIn| < |in0| <==> |consumed| > |consumed0|
      ensures |strm.nextIn| == |in0| <==> |consumed| == |consumed0|
      ensures |strm.output| >= |out0| && |consumed| >= |consumed0|
    {
      assert |consumed0 + in0| == |consumed + strm.nextIn|;
    }

    /** The flushing arm, once its checks have passed. */
    method FlushCall() returns (r: Result)
      requires Valid() && mode == Flushing && availInExpect == |strm.nextIn|
      modifies this, strm, w, fe, fe.block
      ensures Valid() && MovedFrom(old(consumed), old(strm.nextIn), old(strm.output), old(strm.availOut))
      ensures r in {RunOk, FlushOk}
      ensures r == FlushOk ==> mode == Flushing && strm.availOut == 0
      ensures r == RunOk ==> mode == Running && strm.nextIn == [] && Flushed()
    {
      hide Sizes, Front, Accounted, Wire, Filled, MovedFrom, AllOut;
      var moved := HandleCompress();
      PendingIsEmpty();
      if availInExpect > 0 || !IsEmptyRL() || stateOutPos < |w.zbits| { return FlushOk; }
      mode := Running;
      r := RunOk;
    }

    /** The finishing arm, likewise. */
    method FinishCall() returns (r: Result)
      requires Valid() && Between() && mode == Finishing && availInExpect == |strm.nextIn|
      modifies this, strm, w, fe, fe.block
      ensures Valid() && Between()
      ensures MovedFrom(old(consumed), old(strm.nextIn), old(strm.output), old(strm.availOut))
      ensures r in {StreamEnd, FinishOk, SequenceError}
      ensures if r == StreamEnd then mode == Idle && strm.nextIn == [] else mode == Finishing && strm.availOut == 0
      ensures r == SequenceError <==> |consumed| == |old(consumed)| && |strm.output| == |old(strm.output)|
      ensures old(Straight()) ==> Straight()
    {
      hide Sizes, Front, Accounted, Wire, Filled, MovedFrom;
      var moved := HandleCompress();
      Moved(old(consumed), old(strm.nextIn), old(strm.output), old(strm.availOut));
      if !moved { return SequenceError; }
      PendingIsEmpty();
      if availInExpect > 0 || !IsEmptyRL() || stateOutPos < |w.zbits| { return FinishOk; }
      mode := Idle;
      r := StreamEnd;
    }

    lemma PendingIsEmpty()
      requires Front() && Accounted()
      ensures IsEmptyRL() <==> fe.stateInCh == NO_CHAR
      ensures fe.stateInCh == NO_CHAR && fe.runs == [] ==> Data(done) == consumed
    {
      hide Data, Sums, CombineAll;
    }

    /** Everything consumed is in the blocks sent, and all their whole bytes
        have been delivered. */
    ghost predicate Flushed()
      reads this, strm, fe, w
    {
      state == Input && Data(done) == consumed && w.zbits == []
    }
  }

  lemma PackedNothing(block: Block, inUse: seq<bool>, crc: bv32, table: CrcTable, runs: seq<RunLength.Run>)
    requires Packs(block, inUse, crc, table, runs) && block == []
    ensures runs == []
  {
    NoRuns(runs, block);
  }

  lemma Regroup2(a: Bits, b: Bits, c: Bits)
    ensures a + (b + c) == a + b + c
  {
  }

  lemma Regroup3(a: Block, b: Block, c: Block)
    ensures a + (b + c) == a + b + ([] + c)
  {
  }

  lemma FewBits(w: BitStream)
    requires w.Valid() && w.zbits == []
    ensures |w.Sent()| <= 32
  {
  }

  lemma SentBytes(w: BitStream)
    requires w.Valid()
    ensures 8 * |w.zbits| <= |w.Sent()|
  {
    Capacity.BytesLength(w.zbits);
  }

  lemma HeaderLength(level: nat)
    ensures |StreamHeader(level)| == 32
  {
    Capacity.BytesLength([0x42, 0x5A, 0x68, 0x30 + level]);
  }

  lemma TrailerLength(combined: bv32)
    ensures |Trailer(combined)| == 80
  {
    hide ToBits, Word;
    Capacity.BytesLength(END_MAGIC);
  }

  lemma SentIsTop(w: BitStream)
    requires w.Valid()
    ensures w.Sent() == PutBytes(w.zbits) + TopBits(w.bsBuff, w.bsLive)
    ensures w.zbits == [] ==> w.Sent() == TopBits(w.bsBuff, w.bsLive)
  {
  }

  lemma Assemble(a: Bits, b: Bits, c: Bits, d: Bits)
    ensures a + (b + c + d) == a + b + c + d
  {
  }

  lemma NoRuns(runs: seq<RunLength.Run>, block: Block)
    requires RunLength.ValidRuns(runs) && RunLength.Packed(runs) == block == []
    ensures runs == []
  {
    if runs != [] {
      RunLength.FirstByteOfPacked(runs);
    }
  }

  lemma NothingUnpacked()
    ensures RunLength.Unpacked([]) == []
  {
  }
}
