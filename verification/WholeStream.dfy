/** What the compressor delivered by the time it reports the end of the stream
    is what the decompressor turns back into all the input it consumed. */
module WholeStream {
  import opened Arith
  import opened Bits
  import opened Rotations
  import opened BlockCrc
  import opened BlockImage
  import opened DecoderMachine
  import opened StreamRoundTrip
  import opened Decompressor
  import opened DecoderBounds
  import opened DecoderInvariant
  import opened Histogram
  import opened Streams
  import opened StreamFormat
  import opened Capacity
  import BlockReader
  import Compressor
  import RunLength
  import RunFrontEnd

  /** The output is the image of these blocks, filled up with zero bits. */
  ghost predicate Written(table: CrcTable, level: nat, blocks: seq<Sorted>, output: seq<Byte>) {
    && GoodBlocks(blocks, level)
    && (exists pad :: pad < 8 && PutBytes(output) == StreamBits(table, blocks, level) + Zeros(pad))
  }

  /** For every schedule of calls and buffer sizes that led here. */
  lemma FinishedStreamDecodes(s: Compressor.EState)
    requires s.Valid() && s.mode == Compressor.Idle
    ensures Written(s.fe.table, s.level, s.done, s.strm.output) && Data(s.done) == s.consumed
    ensures Decode(s.fe.table, PutBytes(s.strm.output)) == (s.consumed, Ended)
  {
    hide Decode, Data, StreamBits, GoodBlocks;
    StreamDecodes(s.fe.table, s.done, s.level, Zeros(s.pad));
    assert s.strm.output + s.w.zbits[s.stateOutPos..] == s.strm.output;
    assert RunLength.Unpacked([]) + RunFrontEnd.Pending(RunFrontEnd.NO_CHAR, 0) == [];
    assert Data(s.done) + [] == Data(s.done);
  }

  /** One call of the caller: more input, the room there is now, the action. */
  datatype Call = Call(input: seq<Byte>, room: nat, action: Compressor.Action)

  function Offered(calls: seq<Call>): seq<Byte> {
    if calls == [] then [] else Offered(calls[..|calls| - 1]) + calls[|calls| - 1].input
  }

  lemma OfferedSnoc(calls: seq<Call>, i: nat)
    requires i < |calls|
    ensures Offered(calls[..i + 1]) == Offered(calls[..i]) + calls[i].input
  {
    assert calls[..i + 1][..i] == calls[..i];
  }

  ghost predicate NeverFlushes(calls: seq<Call>) {
    forall i :: 0 <= i < |calls| ==> calls[i].action != Compressor.Flush
  }

  lemma OnlyLastIsCut(s: Compressor.EState)
    requires s.Filled() && s.Straight()
    ensures forall i :: 0 <= i < |s.done| - 1 ==> Compressor.Full(s.done[i], s.level)
  {
  }

  lemma FlushesSnoc(calls: seq<Call>, i: nat)
    requires i < |calls|
    ensures NeverFlushes(calls[..i + 1]) ==> NeverFlushes(calls[..i]) && calls[i].action != Compressor.Flush
  {
    assert calls[..i + 1][i] == calls[i];
    assert forall k :: 0 <= k < i ==> calls[..i + 1][k] == calls[..i][k];
  }

  /** One call: more input, some room, an action. */
  method OneCall(s: Compressor.EState, call: Call) returns (ended: bool)
    requires s.Valid() && s.Between()
    modifies s, s.strm, s.w, s.fe, s.fe.block
    ensures s.Valid() && s.Between() && (old(s.Straight()) && call.action != Compressor.Flush ==> s.Straight())
    ensures s.consumed + s.strm.nextIn == old(s.consumed) + old(s.strm.nextIn) + call.input
    ensures ended ==> s.mode == Compressor.Idle && s.strm.nextIn == []
  {
    hide Compressor.EState.Sizes, Compressor.EState.Front, Compressor.EState.Accounted, Compressor.EState.Wire,
      Compressor.EState.Filled, Compressor.EState.Control, Compressor.EState.Legal, Compressor.EState.Flushed, Compressor.EState.Straight;
    s.strm.nextIn := s.strm.nextIn + call.input;
    s.strm.availOut := call.room;
    var r := s.BzCompress(call.action);
    ended := r == Compressor.StreamEnd;
  }

  /** A whole session, whatever the calls, their pieces of input and their
      output room: if it ends, the output is a stream of blocks of all the input
      offered, and decodes to it. Without a flush all blocks but the last are full. */
  method Session(level: nat, workFactor: nat, table: CrcTable, calls: seq<Call>)
    returns (output: seq<Byte>, used: nat, ended: bool, ghost blocks: seq<Sorted>)
    requires 1 <= level <= 9 && workFactor <= 250
    ensures used <= |calls|
    ensures ended ==> Written(table, level, blocks, output) && Data(blocks) == Offered(calls[..used])
    ensures ended && NeverFlushes(calls[..used]) ==> forall i :: 0 <= i < |blocks| - 1 ==> Compressor.Full(blocks[i], level)
    ensures ended ==> Decode(table, PutBytes(output)) == (Offered(calls[..used]), Ended)
    ensures !ended ==> used == |calls|
  {
    hide Decode, PutBytes, Written, Compressor.EState.Sizes, Compressor.EState.Front, Compressor.EState.Accounted, Compressor.EState.Wire,
      Compressor.EState.Filled, Compressor.EState.Control, Compressor.EState.Legal, Compressor.EState.Flushed, Compressor.EState.Straight, NeverFlushes;
    var strm := new BzStream();
    var s := new Compressor.EState(strm, level, workFactor, table);
    used, ended := 0, false;
    assert calls[..0] == [];
    while used < |calls| && !ended
      invariant used <= |calls| && s.Valid() && s.Between() && s.strm == strm && s.fe.table == table
      invariant NeverFlushes(calls[..used]) ==> s.Straight()
      invariant fresh(s) && fresh(strm) && fresh(s.w) && fresh(s.fe) && fresh(s.fe.block)
      invariant s.consumed + strm.nextIn == Offered(calls[..used])
      invariant ended ==> s.mode == Compressor.Idle && strm.nextIn == []
      decreases |calls| - used
    {
      OfferedSnoc(calls, used);
      FlushesSnoc(calls, used);
      ended := OneCall(s, calls[used]);
      used := used + 1;
    }
    output, blocks := strm.output, s.done;
    if ended {
      FinishedStreamDecodes(s);
      if NeverFlushes(calls[..used]) { OnlyLastIsCut(s); }
      assert s.consumed + [] == s.consumed;
    }
  }

  lemma DataInBlock(b: Sorted, level: nat)
    requires GoodBlock(b, level)
    ensures b.data != []
  {
    hide GoodCoding;
    assert b.bytes != [];
    var k := RunLength.Lead(b.bytes);
  }

  lemma NoBlocks(blocks: seq<Sorted>, level: nat)
    requires GoodBlocks(blocks, level) && Data(blocks) == []
    ensures blocks == []
  {
    if blocks != [] {
      DataInBlock(blocks[0], level);
    }
  }

  lemma {:induction false} PutBytesInjective(a: seq<Byte>, b: seq<Byte>)
    requires PutBytes(a) == PutBytes(b)
    ensures a == b
  {
    hide ToBits, PutBytes;
    BytesLength(a);
    BytesLength(b);
    if a != [] {
      FirstOf(a);
      FirstOf(b);
      assert PutBytes(a)[..8] == PutByte(a[0]) && PutBytes(b)[..8] == PutByte(b[0]);
      assert PutBytes(a)[8..] == PutBytes(a[1..]) && PutBytes(b)[8..] == PutBytes(b[1..]);
      PutByteInjective(a[0], b[0]);
      PutBytesInjective(a[1..], b[1..]);
    }
  }

  lemma PutByteInjective(a: Byte, b: Byte)
    requires PutByte(a) == PutByte(b)
    ensures a == b
  {
    Pow2Values();
    FromToBits(a, 8);
    FromToBits(b, 8);
  }

  /** A session without input writes exactly these fourteen bytes. */
  lemma EmptyFile(table: CrcTable, level: nat, blocks: seq<Sorted>, output: seq<Byte>)
    requires Written(table, level, blocks, output) && Data(blocks) == [] && level <= 9
    ensures output == [0x42, 0x5A, 0x68, 0x30 + level, 0x17, 0x72, 0x45, 0x38, 0x50, 0x90, 0x00, 0x00, 0x00, 0x00]
  {
    hide ToBits, PutBytes, GoodBlocks;
    NoBlocks(blocks, level);
    var pad :| pad < 8 && PutBytes(output) == StreamBits(table, blocks, level) + Zeros(pad);
    var head: seq<Byte>, zero: seq<Byte> := [0x42, 0x5A, 0x68, 0x30 + level], [0, 0, 0, 0];
    NoSum(table);
    BytesLength(output);
    BytesLength(head + END_MAGIC + zero);
    PutBytesConcat(head, END_MAGIC);
    PutBytesConcat(head + END_MAGIC, zero);
    assert PutBytes(output) == PutBytes(head + END_MAGIC + zero) + Zeros(pad);
    assert PutBytes(head + END_MAGIC + zero) + Zeros(0) == PutBytes(head + END_MAGIC + zero);
    PutBytesInjective(output, head + END_MAGIC + zero);
  }

  lemma NoSum(table: CrcTable)
    ensures BlocksBits(table, [], 0) == [] && PutWord(Word(CombineAll(Sums(table, [])))) == PutBytes([0, 0, 0, 0])
  {
    hide ToBits, PutByte, PutBytes, PutWord;
    assert CombineAll(Sums(table, [])) == 0 && Word(0) == 0;
    WordIsNumber(0);
    BytesAreNumber([0, 0, 0, 0]);
    FourDigits(0, 0, 0, 0);
  }

  // ---------- Decompressing in pieces ----------

  /** One call of BZ2_bzDecompress's caller. */
  datatype Piece = Piece(input: seq<Byte>, room: nat)

  function AllInput(pieces: seq<Piece>): seq<Byte> {
    if pieces == [] then [] else pieces[0].input + AllInput(pieces[1..])
  }

  lemma NextPiece(nextIn: seq<Byte>, pieces: seq<Piece>, i: nat)
    requires i < |pieces|
    ensures PutBytes(nextIn) + PutBytes(AllInput(pieces[i..]))
         == PutBytes(nextIn + pieces[i].input) + PutBytes(AllInput(pieces[i + 1..]))
  {
    hide PutBytes;
    assert pieces[i..][1..] == pieces[i + 1..];
    PutBytesConcat(nextIn, pieces[i].input);
    PutBytesConcat(pieces[i].input, AllInput(pieces[i + 1..]));
  }

  /** Cut data into pieces of the sizes given, the last one taking the rest. */
  function Cut(data: seq<Byte>, cuts: seq<(nat, nat)>): (r: seq<Piece>)
    requires cuts != []
    ensures AllInput(r) == data
  {
    if |cuts| == 1 then [Piece(data, cuts[0].1)]
    else
      var k := if cuts[0].0 < |data| then cuts[0].0 else |data|;
      [Piece(data[..k], cuts[0].1)] + Cut(data[k..], cuts[1..])
  }

  lemma SuspendedOutlook(d: Decoder, f: Bits)
    requires d.Valid() && Reads(d.reader.s) && d.bsLive < Need(d.reader.s) && f == []
    ensures d.Outlook(f) == ([], Waiting)
  {
    hide Need;
    assert d.Held() + f == d.Held();
  }

  /** No stream, valid or not, makes the decoder look at a table entry that was
      never filled in. */
  lemma NeverUndefined(table: CrcTable, bits: Bits)
    ensures Decode(table, bits).1 != Failed(Undefined)
  {
    DefinedFrom(table, Magic(1), bits, 0);
  }

  lemma {:induction false} DefinedFrom(table: CrcTable, s: State, bits: Bits, combined: bv32)
    requires Bounded(s)
    ensures DecodeFrom(table, s, bits, combined).1 != Failed(Undefined)
    decreases |bits|, if Reads(s) then 0 else 1
  {
    hide Deliver, Combine, BlockSum, Word;
    if s.Output? {
      var d := Deliver(table, s.h, s.bytes);
      DeliverVerdict(table, s.h, s.bytes);
      if d.1 == Waiting {
        DefinedFrom(table, BlkHdr(s.h.level, 1), bits, Combine(combined, BlockSum(table, d.0)));
      }
    } else if Reads(s) {
      var r := Advance(s, bits);
      AlwaysBounded(s, bits);
      if !Reads(r.0) { DefinedFrom(table, r.0, r.1, combined); }
    }
  }

  lemma DeliverVerdict(table: CrcTable, h: Head, last: Block)
    ensures Deliver(table, h, last).1 in {Failed(DataError), Waiting}
  {
  }

  /** Decompress, fast or small, from input in any pieces into any room. The
      outcome is that of decoding all the input at once: an error only if the
      stream has it, the end only when all data is out, and always a prefix of
      the data; if there was room left, the stream is cut short. */
  method Unpack(small: bool, table: CrcTable, pieces: seq<Piece>)
    returns (output: seq<Byte>, answer: Answer, left: nat)
    ensures var whole := Decode(table, PutBytes(AllInput(pieces)));
            && output <= whole.0
            && (answer == StreamOver ==> whole == (output, Ended))
            && (answer.Refused? ==> whole.1 == Failed(answer.code))
            && (answer.Refused? && (small || answer.code != DataError) ==> output == whole.0)
            && (answer == Ok && left > 0 ==> whole == (output, Waiting))
            && answer != SequenceError && answer != Refused(Undefined)
  {
    hide Decode, PutBytes, AllInput, Decoder.Valid, Decoder.Outlook, Decoder.Held, Decoder.Unread, Follows, Need, Reads,
      BlockReader.Reader.Arrays;
    var strm := new BzStream();
    var d := new Decoder(strm, small, table);
    ghost var whole := Decode(table, PutBytes(AllInput(pieces)));
    Beginning(d, PutBytes(AllInput(pieces)));
    FollowsSelf(whole);
    NeverUndefined(table, PutBytes(AllInput(pieces)));
    answer, left := Ok, 0;
    assert pieces[0..] == pieces;
    ghost var data: Block := [];
    var i := 0;
    while i < |pieces|
      invariant i <= |pieces| && d.Valid() && d.strm == strm && d.table == table && answer == Ok && !d.reader.s.Stop?
      invariant fresh(d) && fresh(d.reader) && fresh(d.reader.Arrays()) && fresh(strm) && (d.stage != null ==> fresh(d.stage))
      invariant strm.output == data && left == strm.availOut
      invariant Follows(whole, data, d.Outlook(d.Unread(PutBytes(AllInput(pieces[i..])))))
      invariant left > 0 ==> strm.nextIn == [] && Reads(d.reader.s) && d.bsLive < Need(d.reader.s)
      decreases |pieces| - i
    {
      NextPiece(strm.nextIn, pieces, i);
      ghost var before := d.Outlook(d.Unread(PutBytes(AllInput(pieces[i..]))));
      Give(d, pieces[i], PutBytes(AllInput(pieces[i..])), PutBytes(AllInput(pieces[i + 1..])));
      i := i + 1;
      ghost var f := PutBytes(AllInput(pieces[i..]));
      ghost var emitted;
      ghost var arrays := d.reader.Arrays();
      label Before:
      answer, emitted := d.BzDecompress(f);
      AnsweredAfter(answer, small, whole, data, before, emitted);
      if answer != Ok {
        output, left := strm.output, strm.availOut;
        return;
      }
      FollowsTrans(whole, data, before, emitted, d.Outlook(d.Unread(f)));
      data := data + emitted;
      left := strm.availOut;
      forall o | o in d.reader.Arrays() ensures fresh(o) {
        if o !in arrays { assert fresh@Before(o); }
      }
    }
    output := strm.output;
    FollowsFacts(whole, data, d.Outlook(d.Unread(PutBytes(AllInput(pieces[i..])))));
    if left > 0 {
      NothingUnread(d, pieces);
      SuspendedOutlook(d, d.Unread(PutBytes(AllInput(pieces[i..]))));
      assert data + [] == data;
    }
  }

  lemma NothingUnread(d: Decoder, pieces: seq<Piece>)
    requires d.strm.nextIn == []
    ensures d.Unread(PutBytes(AllInput(pieces[|pieces|..]))) == []
  {
  }

  /** The caller's part: more input, and the room there is now. */
  method Give(d: Decoder, piece: Piece, ghost f: Bits, ghost f': Bits)
    requires d.Valid()
    requires PutBytes(d.strm.nextIn) + f == PutBytes(d.strm.nextIn + piece.input) + f'
    modifies d.strm
    ensures d.Valid() && d.Outlook(d.Unread(f')) == old(d.Outlook(d.Unread(f)))
    ensures d.strm.nextIn == old(d.strm.nextIn) + piece.input
    ensures d.strm.output == old(d.strm.output) && d.strm.availOut == piece.room
  {
    hide DecodeFrom, StageOutlook, ToBits, PutBytes, Decoder.Machine;
    d.strm.nextIn := d.strm.nextIn + piece.input;
    d.strm.availOut := piece.room;
  }

  lemma Beginning(d: Decoder, all: Bits)
    requires d.Valid() && d.reader.s == Magic(1) && d.Held() == [] && d.combinedCRC == 0 && d.strm.nextIn == []
    ensures d.Outlook(d.Unread(all)) == Decode(d.table, all)
  {
    hide DecodeFrom;
    assert d.Unread(all) == all;
    assert [] + all == all;
  }

  /** Everything together: compress with any calls, cut the result anywhere,
      decompress into any room. No error can come up; what is delivered is the
      data offered, all of it once the end is reported, and the end can be
      missing only for want of room. */
  method ThereAndBack(level: nat, workFactor: nat, table: CrcTable, calls: seq<Call>, small: bool, cuts: seq<(nat, nat)>)
    returns (used: nat, ended: bool, output: seq<Byte>, answer: Answer, left: nat)
    requires 1 <= level <= 9 && workFactor <= 250 && cuts != []
    ensures used <= |calls|
    ensures ended ==>
      && answer in {Ok, StreamOver} && output <= Offered(calls[..used])
      && (answer == StreamOver ==> output == Offered(calls[..used]))
      && (answer == Ok ==> left == 0)
  {
    hide Decode, PutBytes, AllInput;
    ghost var blocks;
    var packed;
    packed, used, ended, blocks := Session(level, workFactor, table, calls);
    output, answer, left := Unpack(small, table, Cut(packed, cuts));
  }
}
