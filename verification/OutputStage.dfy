/** The output stage of the decoder (bzlib.c, 536-804): the fast and the small
    version deliver the same bytes for every sequence of buffer sizes. */
module OutputStage {
  import opened Arith
  import opened CountingSort
  import opened Rotations
  import opened InverseBwt
  import opened RunLength
  import opened BlockCrc
  import opened Randomise

  /** What successive BZ_GETs yield: the block, then two bytes of wrap-around. */
  ghost function RawGets(last: Block, o: nat): (s: Block)
    requires o < |last|
    ensures |s| == |last| + 2
  {
    Unsort(last, o, |last| + 2)
  }

  /** The same with the mask of a randomised block taken off. */
  ghost function Gets(last: Block, o: nat, rand: bool): (s: Block)
    requires o < |last|
    ensures |s| == |last| + 2
  {
    Unmasked(RawGets(last, o), rand)
  }

  lemma GotMasked(last: Block, o: nat, rand: bool, k: nat)
    requires o < |last| && k < |last| + 2
    ensures Gets(last, o, rand)[k] == if rand && After(k + 1).toGo == 1 then Flip(RawGets(last, o)[k]) else RawGets(last, o)[k]
  {
    hide RawGets, Flip, After;
  }

  lemma GetsArePlain(last: Block, o: nat)
    requires o < |last|
    ensures Gets(last, o, false) == RawGets(last, o)
  {
    hide RawGets;
    PlainStays(RawGets(last, o));
  }

  lemma {:induction false} UnsortAt(last: Block, o: nat, m: nat, k: nat)
    requires o < |last| && k < m
    ensures (OrderIsPermutation(last); Unsort(last, o, m)[k] == FirstColumn(last, Walk(last, o, k)))
  {
    hide FirstColumn, Walk, StableOrder, Permutation;
    OrderIsPermutation(last);
    if k < m - 1 {
      UnsortAt(last, o, m - 1, k);
    }
  }

  lemma GetsAt(last: Block, o: nat, k: nat)
    requires o < |last| && k < |last| + 2
    ensures (OrderIsPermutation(last); RawGets(last, o)[k] == FirstColumn(last, Walk(last, o, k)))
  {
    UnsortAt(last, o, |last| + 2, k);
  }

  /** Row m of the walk, as a total function. */
  ghost function Pos(last: Block, o: nat, m: nat): (r: nat)
    requires o < |last|
    ensures r < |last|
  {
    OrderIsPermutation(last);
    Walk(last, o, m)
  }

  lemma PosStep(last: Block, o: nat, m: nat)
    requires o < |last|
    ensures |StableOrder(last, 256)| == |last|
    ensures Pos(last, o, m + 1) == StableOrder(last, 256)[Pos(last, o, m)]
    ensures Pos(last, o, 0) == o
    ensures m < |last| + 2 ==> Pos(last, o, m + 1) < |last| && RawGets(last, o)[m] == last[Pos(last, o, m + 1)]
  {
    OrderIsPermutation(last);
    if m < |last| + 2 { GetsAt(last, o, m); }
  }

  /** A reader that has made `used` gets and holds the latest byte in k0. */
  ghost predicate Reader(last: Block, o: nat, rand: bool, used: nat, k0: Byte) {
    && o < |last| && 1 <= used <= |last| + 2
    && (used <= |last| ==> k0 == Gets(last, o, rand)[used - 1])
  }

  /** What is still to come: the rest of a run, then all runs after it. */
  ghost function Due(last: Block, o: nat, rand: bool, used: nat, ch: Byte, len: nat): Block
    requires o < |last| && used >= 1
  {
    Rep(ch, len) + Tail(Gets(last, o, rand), |last|, used - 1)
  }

  ghost predicate Clean(last: Block, o: nat, rand: bool, used: nat)
    requires o < |last| && used >= 1
  {
    Complete(Gets(last, o, rand), |last|, used - 1)
  }

  /** The k gets after `used` repeat the byte got before them. */
  ghost predicate Repeats(last: Block, o: nat, rand: bool, used: nat, k: nat)
    requires o < |last| && 1 <= used && used + k <= |last| + 2
  {
    forall i {:trigger Gets(last, o, rand)[i]} :: used <= i < used + k ==> Gets(last, o, rand)[i] == Gets(last, o, rand)[used - 1]
  }

  /** Starting a run of up to three bytes turns the tail into that run and a
      shorter tail. */
  lemma ShortRunStarts(last: Block, o: nat, rand: bool, used: nat, k: nat)
    requires o < |last| && 1 <= used && 1 <= k < 4 && used + k <= |last| + 1
    requires Repeats(last, o, rand, used, k - 1)
    requires used + k == |last| + 1 || Gets(last, o, rand)[used + k - 1] != Gets(last, o, rand)[used - 1]
    ensures Started(last, o, rand, used, used + k, Gets(last, o, rand)[used - 1], k)
  {
    hide Gets;
    ghost var s := Gets(last, o, rand);
    assert LeadAt(s, |last|, used - 1) == k;
  }

  /** So does starting a longer one. */
  lemma LongRunStarts(last: Block, o: nat, rand: bool, used: nat)
    requires o < |last| && 1 <= used && used + 3 <= |last| && Repeats(last, o, rand, used, 3)
    ensures Started(last, o, rand, used, used + 5, Gets(last, o, rand)[used - 1], LongRun(Gets(last, o, rand)[used + 3]))
  {
    hide Gets;
    ghost var s := Gets(last, o, rand);
    assert LeadAt(s, |last|, used - 1) == 4;
  }

  /** A run of `len` bytes ch was started when `before` gets had been made. */
  ghost predicate Started(last: Block, o: nat, rand: bool, before: nat, used: nat, ch: Byte, len: nat)
    requires o < |last| && before >= 1
  {
    && used > before && len >= 1
    && Due(last, o, rand, used, ch, len) == Tail(Gets(last, o, rand), |last|, before - 1)
    && Clean(last, o, rand, used) == Clean(last, o, rand, before)
  }

  lemma NothingDue(last: Block, o: nat, rand: bool, used: nat, ch: Byte)
    requires o < |last| && used >= |last| + 1
    ensures Due(last, o, rand, used, ch, 0) == [] && (Clean(last, o, rand, used) <==> used == |last| + 1)
  {
  }

  lemma NoRunDue(last: Block, o: nat, rand: bool, used: nat, ch: Byte)
    requires o < |last| && used >= 1
    ensures Due(last, o, rand, used, ch, 0) == Tail(Gets(last, o, rand), |last|, used - 1)
  {
  }

  lemma OneLess(last: Block, o: nat, rand: bool, used: nat, ch: Byte, len: nat)
    requires o < |last| && used >= 1 && len >= 1
    ensures Due(last, o, rand, used, ch, len) == [ch] + Due(last, o, rand, used, ch, len - 1)
  {
    assert Rep(ch, len) == [ch] + Rep(ch, len - 1);
  }

  // ---------- Buffers ----------

  /** What a buffer of a given size takes. */
  function Front(data: Block, size: nat): (r: Block)
    ensures r <= data && |r| <= size && (|r| == size || r == data)
  {
    if size < |data| then data[..size] else data
  }

  /** Fill buffers of the given sizes from the data, one after the other. */
  function Pieces(data: Block, sizes: seq<nat>): (r: seq<Block>)
    ensures |r| == |sizes|
  {
    if sizes == [] then []
    else [Front(data, sizes[0])] + Pieces(data[|Front(data, sizes[0])|..], sizes[1..])
  }

  function Joined(pieces: seq<Block>): Block {
    if pieces == [] then [] else Joined(pieces[..|pieces| - 1]) + pieces[|pieces| - 1]
  }

  lemma JoinedSnoc(pieces: seq<Block>, piece: Block)
    ensures Joined(pieces + [piece]) == Joined(pieces) + piece
  {
    assert (pieces + [piece])[..|pieces|] == pieces;
  }

  lemma PiecesStep(data: Block, sizes: seq<nat>)
    requires sizes != []
    ensures var piece := Front(data, sizes[0]);
            Pieces(data, sizes) == [piece] + Pieces(data[|piece|..], sizes[1..])
  {
  }

  lemma NextPiece(was: Block, all: Block, sizes: seq<nat>, i: nat, pieces: seq<Block>, piece: Block)
    requires i < |sizes| && |all| <= |was| && piece == Front(was[|all|..], sizes[i])
    ensures |all + piece| <= |was|
    ensures pieces + Pieces(was[|all|..], sizes[i..]) == pieces + [piece] + Pieces(was[|all + piece|..], sizes[i + 1..])
  {
    PiecesStep(was[|all|..], sizes[i..]);
    assert sizes[i..][1..] == sizes[i + 1..] && was[|all|..][|piece|..] == was[|all + piece|..];
  }

  lemma NoPieces(was: Block, sizes: seq<nat>)
    ensures [] + Pieces(was[0..], sizes[0..]) == Pieces(was, sizes) && Joined([]) == []
    ensures forall x: Block :: Pieces(x, sizes[|sizes|..]) == []
  {
    assert was[0..] == was && sizes[0..] == sizes && sizes[|sizes|..] == [];
  }

  /** The part of DState the output stage works on, for one block. */
  class DState {
    const smallDecompress: bool
    const blockRandomised: bool
    const tt: array<nat>
    const ll16: array<nat>
    const ll4: array<Byte>
    const cftab: array<nat>
    const saveNblock: nat
    const blockSize100k: nat
    const crcTable: CrcTable
    var tPos: nat
    var rNToGo: nat
    var rTPos: nat
    var k0: Byte
    var nblockUsed: nat
    var stateOutCh: Byte
    var stateOutLen: nat
    var calculatedBlockCRC: bv32
    var out: seq<Byte>
    ghost const last: Block
    ghost const o: nat

    /** The tables undo the sort of the block whose last column is `last`. */
    ghost predicate Tables()
      reads tt, ll16, ll4, cftab
    {
      && o < |last| == saveNblock <= 100000 * blockSize100k
      && (if smallDecompress
          then && |last| <= ll16.Length && (|last| + 1) / 2 <= ll4.Length
               && Reversed(Rows(ll16[..], ll4[..], |last|), last, o) && Counts(cftab[..], last)
          else FastTable(tt[..], last))
    }

    ghost predicate Valid()
      reads this, tt, ll16, ll4, cftab
    {
      && Tables() && saveNblock == |last| && Reader(last, o, blockRandomised, nblockUsed, k0) && Placed()
    }

    /** The walk and the mask are where the bytes got so far have left them. */
    ghost predicate Placed()
      reads this`tPos, this`nblockUsed, this`rNToGo, this`rTPos
    {
      && o < |last| && tPos == Pos(last, o, if smallDecompress then nblockUsed else nblockUsed + 1)
      && (blockRandomised ==> Mask(rNToGo, rTPos) == After(nblockUsed))
    }

    /** The plain loops are those of the small decoder and of randomised blocks. */
    predicate Plain() {
      smallDecompress || blockRandomised
    }

    ghost function Remaining(): Block
      reads this
      requires o < |last| && nblockUsed >= 1
    {
      Due(last, o, blockRandomised, nblockUsed, stateOutCh, stateOutLen)
    }

    /** The block has been delivered in full. */
    predicate Finished()
      reads this
    {
      nblockUsed == saveNblock + 1 && stateOutLen == 0
    }

    /** Fetch the first byte of a block whose tables have just been built. */
    constructor (small: bool, randomised: bool, origPtr: nat, tt: array<nat>, ll16: array<nat>, ll4: array<Byte>, cftab: array<nat>,
                 nblock: nat, blockSize100k: nat, crcTable: CrcTable, ghost last: Block)
      requires origPtr < |last| == nblock <= 100000 * blockSize100k
      requires if small then
                 && |last| <= ll16.Length && (|last| + 1) / 2 <= ll4.Length
                 && Reversed(Rows(ll16[..], ll4[..], |last|), last, origPtr) && Counts(cftab[..], last)
               else FastTable(tt[..], last)
      ensures Valid() && smallDecompress == small && blockRandomised == randomised && this.last == last && o == origPtr
      ensures this.tt == tt && this.ll16 == ll16 && this.ll4 == ll4 && this.cftab == cftab
      ensures nblockUsed == 1 && stateOutLen == 0
      ensures this.crcTable == crcTable && calculatedBlockCRC == INITIAL && out == []
    {
      smallDecompress, blockRandomised, saveNblock := small, randomised, nblock;
      this.blockSize100k, this.crcTable, rNToGo, rTPos := blockSize100k, crcTable, 0, 0;
      this.tt, this.ll16, this.ll4, this.cftab := tt, ll16, ll4, cftab;
      this.last, o := last, origPtr;
      tPos, k0, nblockUsed, stateOutCh, stateOutLen, calculatedBlockCRC, out := 0, 0, 0, 0, 0, INITIAL, [];
      new;
      Start(origPtr);
    }

    /** The first byte of the block. */
    method Start(origPtr: nat)
      requires Tables() && o == origPtr && nblockUsed == 0 && rNToGo == rTPos == 0
      modifies this`tPos, this`nblockUsed, this`rNToGo, this`rTPos, this`k0
      ensures Valid() && nblockUsed == 1
    {
      hide Gets, RawGets, Reversed;
      PosStep(last, origPtr, 0);
      GetsArePlain(last, origPtr);
      var bad;
      tPos := if smallDecompress then origPtr else tt[origPtr] / 256;
      if Plain() {
        bad, k0 := Get();
      } else {
        bad, k0, tPos := GetFast(tPos, 0);
        nblockUsed := nblockUsed + 1;
      }
    }

    /** BZ_GET_SMALL. */
    method GetSmall() returns (bad: bool, c: Byte)
      requires smallDecompress && Tables() && nblockUsed <= |last| + 1
      requires tPos == Pos(last, o, nblockUsed)
      modifies this`tPos, this`nblockUsed
      ensures !bad && nblockUsed == old(nblockUsed) + 1 && tPos == Pos(last, o, nblockUsed)
      ensures c == RawGets(last, o)[nblockUsed - 1]
    {
      hide Reversed, RawGets;
      bad, c := true, k0;
      if tPos >= 100000 * blockSize100k { return; }
      RowFacts(cftab[..], last, tPos);
      var nb := IndexIntoF(tPos, cftab);
      BucketIsFirstColumn(last, tPos, nb);
      GetsAt(last, o, nblockUsed);
      c := nb;
      ReversedAt(ll16[..], ll4[..], last, o, nblockUsed);
      tPos := GetLL(ll16[..], ll4[..], tPos);
      nblockUsed := nblockUsed + 1;
      bad := false;
    }

    /** BZ_GET_FAST_C on cached copies of tPos and nblock_used. */
    method GetFast(cTPos: nat, cUsed: nat) returns (bad: bool, c: Byte, cTPos': nat)
      requires !smallDecompress && Tables() && cUsed <= |last| + 1
      requires cTPos == Pos(last, o, cUsed + 1)
      ensures !bad && cTPos' == Pos(last, o, cUsed + 2) && c == RawGets(last, o)[cUsed]
    {
      hide RawGets;
      bad, c, cTPos' := true, k0, cTPos;
      if cTPos >= 100000 * blockSize100k { return; }
      PosStep(last, o, cUsed);
      PosStep(last, o, cUsed + 1);
      var x := tt[cTPos];
      c := x % 256;
      cTPos' := x / 256;
      bad := false;
    }

    /** BZ_RAND_UPD_MASK. */
    method UpdateMask()
      requires rTPos < 512
      modifies this`rNToGo, this`rTPos
      ensures Mask(rNToGo, rTPos) == Updated(Mask(old(rNToGo), old(rTPos)))
    {
      if rNToGo == 0 {
        rNToGo := RNum(rTPos);
        rTPos := rTPos + 1;
        if rTPos == 512 { rTPos := 0; }
      }
      rNToGo := rNToGo - 1;
    }

    /** One byte in the plain loops: a get, and the mask if there is one. */
    method Get() returns (bad: bool, c: Byte)
      requires Plain() && Tables() && saveNblock == |last| && nblockUsed <= |last| + 1 && Placed()
      modifies this`tPos, this`nblockUsed, this`rNToGo, this`rTPos
      ensures !bad && nblockUsed == old(nblockUsed) + 1 && Placed() && c == Gets(last, o, blockRandomised)[nblockUsed - 1]
    {
      hide Gets, RawGets, Tables, Pos, Updated, Flip;
      GotMasked(last, o, blockRandomised, nblockUsed);
      if smallDecompress {
        bad, c := GetSmall();
      } else {
        bad, c, tPos := GetFast(tPos, nblockUsed);
        nblockUsed := nblockUsed + 1;
      }
      if bad { return; }
      if blockRandomised {
        UpdateMask();
        if rNToGo == 1 { c := Flip(c); }
      }
    }

    /** After `emitted` has been delivered out of what was due before. */
    ghost predicate Progress(was: Block, clean: bool, out0: seq<Byte>, crc0: bv32, emitted: seq<Byte>)
      reads this, tt, ll16, ll4, cftab
    {
      && Valid() && out == out0 + emitted && was == emitted + Remaining()
      && Clean(last, o, blockRandomised, nblockUsed) == clean
      && calculatedBlockCRC == UpdateAll(crcTable, crc0, emitted)
    }

    /** The reader is inside a run: k equal bytes have been got since `used`. */
    ghost predicate InRun(used: nat, k: nat)
      reads this, tt, ll16, ll4, cftab
    {
      && Tables() && o < |last| == saveNblock && 1 <= used && nblockUsed == used + k - 1 <= |last| && 1 <= k <= 3
      && Placed() && k0 == Gets(last, o, blockRandomised)[used - 1] == stateOutCh && Repeats(last, o, blockRandomised, used, k - 1)
    }

    /** One more byte: it ends the run, or the run is one longer. */
    method MoreOfRun(ghost used: nat, ghost k: nat) returns (bad: bool, ended: bool)
      requires Plain() && InRun(used, k) && stateOutLen == k
      modifies this`tPos, this`nblockUsed, this`rNToGo, this`rTPos, this`k0
      ensures !bad
      ensures ended ==> Valid() && Started(last, o, blockRandomised, used, nblockUsed, stateOutCh, k)
      ensures !ended && k < 3 ==> InRun(used, k + 1)
      ensures !ended ==> nblockUsed == used + k <= |last| && Repeats(last, o, blockRandomised, used, k) && Placed()
    {
      hide Gets, RawGets, Tables, Started;
      ended := true;
      var k1;
      bad, k1 := Get();
      if bad { return; }
      if nblockUsed == saveNblock + 1 { ShortRunStarts(last, o, blockRandomised, used, k); return; }
      if k1 != k0 { k0 := k1; ShortRunStarts(last, o, blockRandomised, used, k); return; }
      ended := false;
    }

    /** After four equal bytes: the count, and the byte behind it. */
    method CountOfRun(ghost used: nat) returns (bad: bool)
      requires Plain() && Tables() && o < |last| == saveNblock && 1 <= used
      requires nblockUsed == used + 3 <= |last| && Repeats(last, o, blockRandomised, used, 3) && Placed()
      requires stateOutCh == Gets(last, o, blockRandomised)[used - 1]
      modifies this`tPos, this`nblockUsed, this`rNToGo, this`rTPos, this`k0, this`stateOutLen
      ensures !bad && Valid() && Started(last, o, blockRandomised, used, nblockUsed, stateOutCh, stateOutLen)
    {
      hide Gets, RawGets, Tables, Started, LongRun, Repeats, Placed;
      var k1;
      bad, k1 := Get();
      if bad { return; }
      stateOutLen := LongRun(k1);
      bad, k0 := Get();
      if bad { return; }
      LongRunStarts(last, o, blockRandomised, used);
    }

    /** Start the next run (the part of the plain loop after its two tests). */
    method StartRunPlain() returns (bad: bool)
      requires Plain() && Valid() && nblockUsed <= |last| && stateOutLen == 0
      modifies this`tPos, this`nblockUsed, this`rNToGo, this`rTPos, this`k0, this`stateOutCh, this`stateOutLen
      ensures !bad && Valid() && Started(last, o, blockRandomised, old(nblockUsed), nblockUsed, stateOutCh, stateOutLen)
    {
      hide Gets, RawGets, Tables, Started, LongRun;
      ghost var used := nblockUsed;
      stateOutLen := 1;
      stateOutCh := k0;
      var ended;
      bad, ended := MoreOfRun(used, 1);
      if bad || ended { return; }
      stateOutLen := 2;
      bad, ended := MoreOfRun(used, 2);
      if bad || ended { return; }
      stateOutLen := 3;
      bad, ended := MoreOfRun(used, 3);
      if bad || ended { return; }
      bad := CountOfRun(used);
    }

    /** unRLE_obuf_to_output_SMALL, and both versions for a randomised block, with
        room for availOut bytes: one loop around different gets. */
    method EmitPlain(availOut: nat) returns (corrupt: bool, left: nat, ghost emitted: seq<Byte>)
      requires Plain() && Valid()
      modifies this`tPos, this`rNToGo, this`rTPos, this`k0, this`nblockUsed, this`stateOutCh, this`stateOutLen,
        this`calculatedBlockCRC, this`out
      ensures corrupt ==> !old(Clean(last, o, blockRandomised, nblockUsed)) && emitted == old(Remaining())
      ensures Progress(old(Remaining()), old(Clean(last, o, blockRandomised, nblockUsed)), old(out), old(calculatedBlockCRC), emitted)
      ensures left + |emitted| == availOut && (!corrupt ==> left == 0 || Finished())
    {
      hide Gets, Complete, Tail, Rep, Clean, Due, Tables, UpdateAll, Update;
      ghost var was, clean, out0, crc0 := Remaining(), Clean(last, o, blockRandomised, nblockUsed), out, calculatedBlockCRC;
      left, emitted, corrupt := availOut, [], false;
      EmptyUpdate(crcTable, crc0);
      while true
        invariant !corrupt && left + |emitted| == availOut
        invariant Progress(was, clean, out0, crc0, emitted)
        decreases |last| + 3 - nblockUsed
      {
        label Here:
        while true
          invariant !corrupt && left + |emitted| == availOut && nblockUsed == old@Here(nblockUsed)
          invariant Progress(was, clean, out0, crc0, emitted)
          decreases stateOutLen
        {
          if left == 0 { return; }
          if stateOutLen == 0 { break; }
          emitted := EmitOne(was, clean, out0, crc0, emitted);
          left := left - 1;
        }
        if nblockUsed == saveNblock + 1 { return; }
        if nblockUsed > saveNblock + 1 {
          NothingDue(last, o, blockRandomised, nblockUsed, stateOutCh);
          assert was == emitted + Remaining() && Remaining() == [];
          corrupt := true;
          return;
        }
        NoRunDue(last, o, blockRandomised, nblockUsed, stateOutCh);
        corrupt := StartRunPlain();
      }
    }

    /** Deliver one byte of the current run. */
    method EmitOne(ghost was: Block, ghost clean: bool, ghost out0: seq<Byte>, ghost crc0: bv32,
                   ghost before: seq<Byte>) returns (ghost emitted: seq<Byte>)
      requires Progress(was, clean, out0, crc0, before) && stateOutLen >= 1
      modifies this`stateOutLen, this`calculatedBlockCRC, this`out
      ensures emitted == before + [stateOutCh] && stateOutLen == old(stateOutLen) - 1
      ensures Progress(was, clean, out0, crc0, emitted)
    {
      hide Gets, Complete, Tail, Rep, Clean, Due, Tables, Update;
      OneLess(last, o, blockRandomised, nblockUsed, stateOutCh, stateOutLen);
      out := out + [stateOutCh];
      calculatedBlockCRC := Update(crcTable, calculatedBlockCRC, stateOutCh);
      stateOutLen := stateOutLen - 1;
      emitted := before + [stateOutCh];
      assert emitted[..|emitted| - 1] == before;
    }

    /** The locals of the fast loop describe a reader. */
    ghost predicate Cached(k: Byte, used: nat, pos: nat)
      reads tt, ll16, ll4, cftab
    {
      && Tables() && saveNblock == |last| && !Plain()
      && Reader(last, o, blockRandomised, used, k) && pos == Pos(last, o, used + 1)
    }

    /** Start the next run in the fast loop; `one` is its jump to the delivery
        of a single byte, with c_state_out_len left alone. */
    method StartRunFast(cK0: Byte, cUsed: nat, cTPos: nat, cLen: nat)
      returns (bad: bool, ch: Byte, k0': Byte, used: nat, pos: nat, len: nat, one: bool)
      requires Cached(cK0, cUsed, cTPos) && cUsed <= |last|
      ensures !bad && Cached(k0', used, pos) && used > cUsed
      ensures Started(last, o, blockRandomised, cUsed, used, ch, if one then 1 else len)
      ensures one ==> len == cLen
      ensures one || len >= 2
    {
      hide Gets, RawGets, Tables, Started, Pos;
      GetsArePlain(last, o);
      ch, k0', used, pos, len, one := cK0, cK0, cUsed, cTPos, cLen, true;
      var k1;
      bad, k1, pos := GetFast(pos, used); used := used + 1;
      if bad { return; }
      if k1 != k0' { k0' := k1; ShortRunStarts(last, o, blockRandomised, cUsed, 1); return; }
      if used == saveNblock + 1 { ShortRunStarts(last, o, blockRandomised, cUsed, 1); return; }
      one, len := false, 2;
      bad, k1, pos := GetFast(pos, used); used := used + 1;
      if bad { return; }
      if used == saveNblock + 1 { ShortRunStarts(last, o, blockRandomised, cUsed, 2); return; }
      if k1 != k0' { k0' := k1; ShortRunStarts(last, o, blockRandomised, cUsed, 2); return; }
      len := 3;
      bad, k1, pos := GetFast(pos, used); used := used + 1;
      if bad { return; }
      if used == saveNblock + 1 { ShortRunStarts(last, o, blockRandomised, cUsed, 3); return; }
      if k1 != k0' { k0' := k1; ShortRunStarts(last, o, blockRandomised, cUsed, 3); return; }
      bad, k1, pos := GetFast(pos, used); used := used + 1;
      if bad { return; }
      len := LongRun(k1);
      bad, k0', pos := GetFast(pos, used); used := used + 1;
      if bad { return; }
      LongRunStarts(last, o, blockRandomised, cUsed);
    }

    /** What the fast loop keeps about its locals. */
    ghost predicate FastProgress(was: Block, clean: bool, crc0: bv32, k: Byte, used: nat, pos: nat,
                                 ch: Byte, len: nat, crc: bv32, emitted: seq<Byte>)
      reads tt, ll16, ll4, cftab
    {
      && Cached(k, used, pos) && was == emitted + Due(last, o, blockRandomised, used, ch, len)
      && Clean(last, o, blockRandomised, used) == clean && crc == UpdateAll(crcTable, crc0, emitted)
    }

    lemma FastStep(was: Block, clean: bool, crc0: bv32, k: Byte, used: nat, pos: nat,
                   ch: Byte, len: nat, crc: bv32, emitted: seq<Byte>)
      requires FastProgress(was, clean, crc0, k, used, pos, ch, len, crc, emitted) && len >= 1
      ensures FastProgress(was, clean, crc0, k, used, pos, ch, len - 1, Update(crcTable, crc, ch), emitted + [ch])
    {
      hide Gets, Complete, Tail, Rep, Clean, Due, Tables, Update;
      OneLess(last, o, blockRandomised, used, ch, len);
      assert (emitted + [ch])[..|emitted|] == emitted;
    }

    lemma FastStart(was: Block, clean: bool, crc0: bv32, k: Byte, used: nat, pos: nat,
                    ch: Byte, crc: bv32, emitted: seq<Byte>,
                    k': Byte, used': nat, pos': nat, ch': Byte, len': nat)
      requires FastProgress(was, clean, crc0, k, used, pos, ch, 0, crc, emitted)
      requires Cached(k', used', pos') && Started(last, o, blockRandomised, used, used', ch', len')
      ensures FastProgress(was, clean, crc0, k', used', pos', ch', len', crc, emitted)
    {
      hide Gets, Complete, Tail, Rep, Clean, Due, Tables, UpdateAll;
      NoRunDue(last, o, blockRandomised, used, ch);
    }

    /** unRLE_obuf_to_output_FAST with room for availOut bytes: locals caching
        the state are saved at the end, except when corruption is found. */
    method EmitFast(availOut: nat) returns (corrupt: bool, left: nat, ghost emitted: seq<Byte>)
      requires !Plain() && Valid()
      modifies this`tPos, this`rNToGo, this`rTPos, this`k0, this`nblockUsed, this`stateOutCh, this`stateOutLen,
        this`calculatedBlockCRC, this`out
      ensures corrupt ==> !old(Clean(last, o, blockRandomised, nblockUsed)) && unchanged(this) && emitted == []
      ensures !corrupt ==> Progress(old(Remaining()), old(Clean(last, o, blockRandomised, nblockUsed)), old(out), old(calculatedBlockCRC), emitted)
      ensures !corrupt ==> left + |emitted| == availOut && (left == 0 || Finished())
    {
      hide Gets, Complete, Tail, Rep, Clean, Due, Tables, UpdateAll, Update, FastProgress, Started, Cached, Progress;
      ghost var was, clean, crc0 := Remaining(), Clean(last, o, blockRandomised, nblockUsed), calculatedBlockCRC;
      var crc, ch, len, used, k, pos := calculatedBlockCRC, stateOutCh, stateOutLen, nblockUsed, k0, tPos;
      var bytes: seq<Byte> := [];
      var one := false;
      corrupt, left, emitted := false, availOut, [];
      FastBegins(was, clean, crc0);
      while true
        invariant !corrupt && left + |bytes| == availOut && unchanged(this)
        invariant FastProgress(was, clean, crc0, k, used, pos, ch, if one then 1 else len, crc, bytes)
        decreases |last| + 3 - used
      {
        var full := false;
        if one || len > 0 {
          if !one {
            while true
              invariant !full && len >= 1 && left + |bytes| == availOut && unchanged(this)
              invariant FastProgress(was, clean, crc0, k, used, pos, ch, len, crc, bytes)
              decreases len
            {
              if left == 0 { full := true; break; }
              if len == 1 { break; }
              FastStep(was, clean, crc0, k, used, pos, ch, len, crc, bytes);
              bytes := bytes + [ch];
              crc := Update(crcTable, crc, ch);
              len := len - 1;
              left := left - 1;
            }
          }
          if full { break; }
          if left == 0 { len := 1; break; }
          FastStep(was, clean, crc0, k, used, pos, ch, 1, crc, bytes);
          bytes := bytes + [ch];
          crc := Update(crcTable, crc, ch);
          left := left - 1;
        }
        FastBounds(was, clean, crc0, k, used, pos, ch, crc, bytes);
        if used > saveNblock + 1 { corrupt := true; return; }
        if used == saveNblock + 1 { len := 0; break; }
        ghost var used0, k', pos', ch' := used, k, pos, ch;
        corrupt, ch, k, used, pos, len, one := StartRunFast(k, used, pos, len);
        FastStart(was, clean, crc0, k', used0, pos', ch', crc, bytes, k, used, pos, ch, if one then 1 else len);
      }
      Save(was, clean, crc0, k, used, pos, ch, len, crc, bytes);
      emitted := bytes;
    }

    lemma FastBegins(was: Block, clean: bool, crc0: bv32)
      requires Valid() && !Plain() && was == Remaining() && clean == Clean(last, o, blockRandomised, nblockUsed)
      ensures FastProgress(was, clean, crc0, k0, nblockUsed, tPos, stateOutCh, stateOutLen, crc0, [])
    {
    }

    /** The locals go back into the fields. */
    method Save(ghost was: Block, ghost clean: bool, ghost crc0: bv32, k: Byte, used: nat, pos: nat,
                ch: Byte, len: nat, crc: bv32, bytes: seq<Byte>)
      requires FastProgress(was, clean, crc0, k, used, pos, ch, len, crc, bytes)
      modifies this`tPos, this`rNToGo, this`rTPos, this`k0, this`nblockUsed, this`stateOutCh, this`stateOutLen,
        this`calculatedBlockCRC, this`out
      ensures Progress(was, clean, old(out), crc0, bytes)
      ensures stateOutLen == len && nblockUsed == used
    {
      hide Gets, Complete, Tail, Rep, Clean, Due, Tables, UpdateAll;
      calculatedBlockCRC, stateOutCh, stateOutLen, nblockUsed, k0, tPos := crc, ch, len, used, k, pos;
      out := out + bytes;
    }

    lemma FastBounds(was: Block, clean: bool, crc0: bv32, k: Byte, used: nat, pos: nat,
                     ch: Byte, crc: bv32, emitted: seq<Byte>)
      requires FastProgress(was, clean, crc0, k, used, pos, ch, 0, crc, emitted)
      ensures Cached(k, used, pos) && saveNblock == |last| && 1 <= used <= |last| + 2
      ensures used > |last| + 1 ==> !clean
    {
      if used > |last| { NothingDue(last, o, blockRandomised, used, ch); }
    }

    /** One visit of BZ2_bzDecompress to the output state. */
    method Emit(availOut: nat) returns (corrupt: bool, ghost emitted: seq<Byte>)
      requires Valid()
      modifies this`tPos, this`rNToGo, this`rTPos, this`k0, this`nblockUsed, this`stateOutCh, this`stateOutLen,
        this`calculatedBlockCRC, this`out
      ensures corrupt ==> !old(Clean(last, o, blockRandomised, nblockUsed))
      ensures corrupt && Plain() ==> emitted == old(Remaining())
      ensures corrupt && !Plain() ==> unchanged(this) && emitted == []
      ensures |emitted| <= availOut && out == old(out) + emitted
      ensures !corrupt ==> Progress(old(Remaining()), old(Clean(last, o, blockRandomised, nblockUsed)), old(out), old(calculatedBlockCRC), emitted)
      ensures !corrupt ==> |emitted| == availOut || Finished()
    {
      hide Clean, Tables, Due, UpdateAll;
      var left;
      if Plain() {
        corrupt, left, emitted := EmitPlain(availOut);
      } else {
        corrupt, left, emitted := EmitFast(availOut);
      }
    }

    /** Fill one buffer, after `all` has been delivered. */
    method DeliverOne(size: nat, ghost was: Block, ghost out0: seq<Byte>, ghost crc0: bv32, ghost all: seq<Byte>)
      returns (piece: seq<Byte>)
      requires Progress(was, true, out0, crc0, all)
      modifies this`tPos, this`rNToGo, this`rTPos, this`k0, this`nblockUsed, this`stateOutCh, this`stateOutLen,
        this`calculatedBlockCRC, this`out
      ensures Progress(was, true, out0, crc0, all + piece)
      ensures piece == Front(was[|all|..], size)
    {
      hide Progress, Clean, Tables, Due;
      ProgressHolds(was, true, out0, crc0, all);
      ghost var due, before, crc := Remaining(), out, calculatedBlockCRC;
      var filled := |out|;
      var corrupt;
      ghost var emitted;
      corrupt, emitted := Emit(size);
      ProgressHolds(due, true, before, crc, emitted);
      ProgressJoins(was, out0, crc0, all, due, before, crc, emitted);
      NothingLeft(due, emitted, size);
      piece := out[filled..];
      assert was[|all|..] == due;
    }

    /** Deliver a clean block into buffers of the given sizes: what each buffer
        gets depends on the block and the sizes alone, not on the decoder. */
    method Deliver(sizes: seq<nat>) returns (pieces: seq<seq<Byte>>, ghost all: seq<Byte>)
      requires Valid() && Clean(last, o, blockRandomised, nblockUsed)
      modifies this`tPos, this`rNToGo, this`rTPos, this`k0, this`nblockUsed, this`stateOutCh, this`stateOutLen,
        this`calculatedBlockCRC, this`out
      ensures pieces == Pieces(old(Remaining()), sizes) && all == Joined(pieces)
      ensures Progress(old(Remaining()), true, old(out), old(calculatedBlockCRC), all)
    {
      hide Progress, Clean, Tables, Due, Front, Joined, Pieces;
      ghost var was, out0, crc0 := Remaining(), out, calculatedBlockCRC;
      pieces, all := [], [];
      ProgressStarts();
      NoPieces(was, sizes);
      for i := 0 to |sizes|
        invariant Progress(was, true, out0, crc0, all) && |all| <= |was| && all == Joined(pieces)
        invariant pieces + Pieces(was[|all|..], sizes[i..]) == Pieces(was, sizes)
      {
        var piece := DeliverOne(sizes[i], was, out0, crc0, all);
        NextPiece(was, all, sizes, i, pieces, piece);
        JoinedSnoc(pieces, piece);
        all := all + piece;
        pieces := pieces + [piece];
      }
    }

    lemma ProgressStarts()
      requires Valid() && Clean(last, o, blockRandomised, nblockUsed)
      ensures Progress(Remaining(), true, out, calculatedBlockCRC, [])
    {
      EmptyUpdate(crcTable, calculatedBlockCRC);
    }

    lemma ProgressHolds(was: Block, clean: bool, out0: seq<Byte>, crc0: bv32, emitted: seq<Byte>)
      requires Progress(was, clean, out0, crc0, emitted)
      ensures Valid() && Clean(last, o, blockRandomised, nblockUsed) == clean && out == out0 + emitted && was == emitted + Remaining()
      ensures calculatedBlockCRC == UpdateAll(crcTable, crc0, emitted)
    {
    }

    lemma ProgressJoins(was: Block, out0: seq<Byte>, crc0: bv32, all: seq<Byte>,
                        due: Block, before: seq<Byte>, crc: bv32, emitted: seq<Byte>)
      requires Progress(due, true, before, crc, emitted)
      requires before == out0 + all && was == all + due && crc == UpdateAll(crcTable, crc0, all)
      ensures Progress(was, true, out0, crc0, all + emitted)
    {
      hide Tables, Clean, Due, Gets, UpdateAll;
      UpdateConcat(crcTable, crc0, all, emitted);
    }

    lemma NothingLeft(due: Block, emitted: seq<Byte>, size: nat)
      requires Valid() && due == emitted + Remaining() && |emitted| <= size && (|emitted| == size || Finished())
      ensures emitted == Front(due, size)
    {
      if Finished() {
        NothingDue(last, o, blockRandomised, nblockUsed, stateOutCh);
      }
    }
  }

  lemma EmptyUpdate(table: CrcTable, crc: bv32)
    ensures UpdateAll(table, crc, []) == crc
  {
  }

  lemma RowFacts(cftab: seq<nat>, last: Block, k: nat)
    requires Counts(cftab, last) && k < |last|
    ensures cftab[0] <= k < cftab[256]
  {
    AllBelow(last, 256, |last|);
    CountBelowZero(last, |last|);
  }

  lemma ReversedAt(ll16: seq<nat>, ll4: seq<nat>, last: Block, o: nat, m: nat)
    requires o < |last| <= |ll16| && (|last| + 1) / 2 <= |ll4|
    requires Reversed(Rows(ll16, ll4, |last|), last, o)
    ensures GetLL(ll16, ll4, Pos(last, o, m)) == Pos(last, o, m + 1)
  {
    assert Rows(ll16, ll4, |last|)[Walk(last, o, m)] == Walk(last, o, m + 1);
  }

  lemma {:induction false} UnsortPrefix(last: Block, o: nat, m: nat, n: nat)
    requires o < |last| && n <= m
    ensures Unsort(last, o, m)[..n] == Unsort(last, o, n)
    decreases m
  {
    if n < m {
      UnsortPrefix(last, o, m - 1, n);
      OrderIsPermutation(last);
      assert Unsort(last, o, m)[..n] == Unsort(last, o, m - 1)[..n];
    }
  }

  /** A fresh reader owes exactly the run-length decoding of the block, and
      reads it cleanly exactly when there is one. */
  lemma FreshReaderOwesBlock(last: Block, o: nat, rand: bool, ch: Byte)
    requires o < |last|
    ensures Clean(last, o, rand, 1) <==> UnRle(Unmasked(Unsort(last, o, |last|), rand)).Some?
    ensures Clean(last, o, rand, 1) ==> Due(last, o, rand, 1, ch, 0) == UnRle(Unmasked(Unsort(last, o, |last|), rand)).value
    ensures Due(last, o, rand, 1, ch, 0) == Tail(Unmasked(Unsort(last, o, |last| + 2), rand), |last|, 0)
  {
    var n := |last|;
    UnsortPrefix(last, o, n + 2, n);
    UnmaskedPrefix(RawGets(last, o), n, rand);
    TailIsUnRle(Gets(last, o, rand), n, 0);
    assert Gets(last, o, rand)[0..n] == Unmasked(Unsort(last, o, n), rand);
    NoRunDue(last, o, rand, 1, ch);
  }
}
