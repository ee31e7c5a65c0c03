/** The run-length front end of the compressor (bzlib.c: add_pair_to_block,
    ADD_CHAR_TO_BLOCK, flush_RL). */
module RunFrontEnd {
  import opened Arith
  import opened Rotations
  import opened RunLength
  import opened BlockCrc
  import opened GenerateMtf

  const NO_CHAR := 256

  /** The bytes of the pending run. */
  function Pending(ch: nat, len: nat): Block {
    if ch < 256 then Rep(ch, len) else []
  }

  /** The pending run continues the runs already in the block. */
  ghost predicate Pends(runs: seq<Run>, ch: nat, len: nat) {
    && ch <= NO_CHAR && Maximal(runs)
    && (ch < 256 ==> 1 <= len <= 255 && Maximal(runs + [Run(ch, len)]))
    && (ch == NO_CHAR ==> len == 0)
  }

  /** The block holds exactly these runs, its bytes and no others are marked as
      used, and its checksum is that of the data. */
  ghost predicate Packs(block: Block, inUse: seq<bool>, crc: bv32, table: CrcTable, runs: seq<Run>) {
    && Maximal(runs) && Packed(runs) == block && Marks(inUse, block)
    && crc == UpdateAll(table, INITIAL, Unpacked(runs))
  }

  lemma NothingPacked(table: CrcTable)
    ensures Packs([], seq(256, _ => false), INITIAL, table, [])
  {
  }

  /** A packed block, as the compressor needs it. */
  lemma PackedFacts(block: Block, inUse: seq<bool>, crc: bv32, table: CrcTable, runs: seq<Run>)
    requires Packs(block, inUse, crc, table, runs)
    ensures UnRle(block) == Some(Unpacked(runs)) && Squeezed(block, Unpacked(runs)) && Marks(inUse, block)
    ensures Finalise(crc) == BlockSum(table, Unpacked(runs))
  {
    hide UnRle, UpdateAll, Marks;
    UnRleOfPacked(runs);
  }

  lemma {:induction false} UpdateMany(table: CrcTable, crc: bv32, ch: Byte, n: nat)
    ensures UpdateAll(table, crc, Rep(ch, n + 1)) == Update(table, UpdateAll(table, crc, Rep(ch, n)), ch)
    ensures UpdateAll(table, crc, Rep(ch, 0)) == crc
  {
    assert Rep(ch, n + 1)[..n] == Rep(ch, n);
  }

  /** A whole run enters the block. */
  lemma RunPacked(block: Block, inUse: seq<bool>, crc: bv32, table: CrcTable, runs: seq<Run>, r: Run,
                  inUse': seq<bool>, crc': bv32)
    requires Packs(block, inUse, crc, table, runs) && Maximal(runs + [r])
    requires |inUse'| == 256 && forall v :: 0 <= v < 256 ==>
               (inUse'[v] <==> inUse[v] || v == r.ch || (r.len >= 4 && v == r.len - 4))
    requires crc' == UpdateAll(table, crc, Rep(r.ch, r.len))
    ensures ValidRun(r) && Packs(block + RunBytes(r), inUse', crc', table, runs + [r])
  {
    hide Rep, UpdateAll, Packed, Unpacked, RunBytes;
    PackedSnoc(runs, r);
    UpdateConcat(table, INITIAL, Unpacked(runs), Rep(r.ch, r.len));
    forall v | 0 <= v < 256 ensures inUse'[v] <==> v in block + RunBytes(r) {
      RunBytesUsed(r, v);
    }
  }

  lemma RunBytesUsed(r: Run, v: Byte)
    requires ValidRun(r)
    ensures v in RunBytes(r) <==> v == r.ch || (r.len >= 4 && v == r.len - 4)
  {
    var s := RunBytes(r);
    assert s[0] == r.ch;
    if r.len >= 4 {
      assert s[4] == r.len - 4;
    }
  }

  lemma RunGrows(runs: seq<Run>, ch: nat, len: nat)
    requires Pends(runs, ch, len) && ch < 256 && len < 255
    ensures Pends(runs, ch, len + 1)
    ensures forall x: Block :: x + Pending(ch, len + 1) == x + Pending(ch, len) + [ch]
  {
    var a, b := runs + [Run(ch, len)], runs + [Run(ch, len + 1)];
    forall i | 0 <= i < |b| - 1 ensures b[i].len == 255 || b[i].ch != b[i + 1].ch {
      assert a[i].len == 255 || a[i].ch != a[i + 1].ch;
    }
    assert Rep(ch, len + 1) == Rep(ch, len) + [ch];
  }

  lemma OnlyPending(runs: seq<Run>, ch: nat, len: nat)
    requires Pends(runs, ch, len)
    ensures Pends([], ch, len)
  {
    if ch < 256 {
      assert (runs + [Run(ch, len)])[|runs|] == Run(ch, len);
    }
  }

  lemma NewRun(runs: seq<Run>, c: Byte)
    requires Maximal(runs)
    requires runs != [] ==> runs[|runs| - 1].len == 255 || runs[|runs| - 1].ch != c
    ensures Pends(runs, c, 1) && Pending(c, 1) == [c]
  {
    var b := runs + [Run(c, 1)];
    assert forall i :: 0 <= i < |runs| ==> b[i] == runs[i];
    assert Rep(c, 1) == [c];
  }

  class FrontEnd {
    const table: CrcTable
    const block: array<Byte>
    var nblock: nat
    var inUse: seq<bool>
    var blockCRC: bv32
    var stateInCh: nat
    var stateInLen: nat
    ghost var runs: seq<Run>

    constructor (table: CrcTable, size: nat)
      ensures fresh(block) && block.Length == size && this.table == table
      ensures nblock == 0 && runs == [] && stateInCh == NO_CHAR && Valid()
    {
      this.table, block := table, new Byte[size];
      nblock, inUse, blockCRC, stateInCh, stateInLen, runs := 0, seq(256, _ => false), INITIAL, NO_CHAR, 0, [];
      new;
      NothingPacked(table);
      assert block[..0] == [];
    }

    ghost predicate Valid()
      reads this, block
    {
      && nblock <= block.Length && Pends(runs, stateInCh, stateInLen)
      && Packs(block[..nblock], inUse, blockCRC, table, runs)
    }

    /** The data since the block was started. */
    ghost function Held(): Block
      reads this
    {
      Unpacked(runs) + Pending(stateInCh, stateInLen)
    }

    /** The data of prepare_new_block; the pending run stays. */
    method PrepareNewBlock()
      requires Pends(runs, stateInCh, stateInLen)
      modifies this`nblock, this`inUse, this`blockCRC, this`runs
      ensures Valid() && nblock == 0 && runs == []
    {
      NothingPacked(table);
      OnlyPending(runs, stateInCh, stateInLen);
      nblock, inUse, blockCRC, runs := 0, seq(256, _ => false), INITIAL, [];
      assert block[..0] == [];
    }

    method Put(c: Byte)
      requires nblock < block.Length
      modifies this`nblock, block
      ensures nblock == old(nblock) + 1 && block[..nblock] == old(block[..nblock]) + [c]
    {
      block[nblock] := c;
      nblock := nblock + 1;
    }

    /** The switch of add_pair_to_block. */
    method PutRun(ch: Byte)
      requires nblock + 5 <= block.Length && 1 <= stateInLen <= 255 && |inUse| == 256
      modifies this`nblock, this`inUse, block
      ensures nblock <= old(nblock) + 5 && nblock > old(nblock)
      ensures nblock <= block.Length && block[..nblock] == old(block[..nblock]) + RunBytes(Run(ch, stateInLen))
      ensures inUse == if stateInLen < 4 then old(inUse) else old(inUse)[stateInLen - 4 := true]
    {
      if stateInLen == 1 {
        Put(ch);
      } else if stateInLen == 2 {
        Put(ch); Put(ch);
      } else if stateInLen == 3 {
        Put(ch); Put(ch); Put(ch);
      } else {
        inUse := inUse[stateInLen - 4 := true];
        PutFour(ch);
        Put(stateInLen - 4);
      }
    }

    method PutFour(ch: Byte)
      requires nblock + 4 <= block.Length
      modifies this`nblock, block
      ensures nblock == old(nblock) + 4 && block[..nblock] == old(block[..nblock]) + Rep(ch, 4)
    {
      Put(ch); Put(ch); Put(ch); Put(ch);
    }

    /** add_pair_to_block. */
    method AddPairToBlock()
      requires Valid() && stateInCh < 256 && nblock + 5 <= block.Length
      modifies this`nblock, this`inUse, this`blockCRC, this`runs, block
      ensures old(nblock) < nblock <= old(nblock) + 5 && nblock <= block.Length
      ensures runs == old(runs) + [Run(stateInCh, stateInLen)] && Maximal(runs)
      ensures Packs(block[..nblock], inUse, blockCRC, table, runs)
    {
      hide Packs, RunBytes, Rep, UpdateAll, Update;
      ghost var before, used, crc := block[..nblock], inUse, blockCRC;
      ghost var r := Run(stateInCh, stateInLen);
      var ch: Byte := stateInCh;
      CoverSize(before, inUse, crc, table, runs);
      UpdateMany(table, crc, ch, 0);
      for i := 0 to stateInLen
        invariant blockCRC == UpdateAll(table, crc, Rep(ch, i))
        invariant nblock == old(nblock) && block[..nblock] == before && inUse == used && runs == old(runs)
      {
        UpdateMany(table, crc, ch, i);
        blockCRC := Update(table, blockCRC, ch);
      }
      inUse := inUse[stateInCh := true];
      PutRun(ch);
      RunPacked(before, used, crc, table, runs, r, inUse, blockCRC);
      runs := runs + [r];
    }

    lemma CoverSize(b: Block, inUse: seq<bool>, crc: bv32, table: CrcTable, runs: seq<Run>)
      requires Packs(b, inUse, crc, table, runs)
      ensures |inUse| == 256
    {
    }

    /** flush_RL. */
    method FlushRL()
      requires Valid() && nblock + 5 <= block.Length
      modifies this, block
      ensures Valid() && stateInCh == NO_CHAR && nblock <= old(nblock) + 5 && Unpacked(runs) == old(Held())
      ensures old(stateInCh) < 256 ==> nblock > old(nblock)
    {
      hide Packs, Unpacked, Rep;
      if stateInCh < 256 {
        PackedSnoc(runs, Run(stateInCh, stateInLen));
        AddPairToBlock();
      } else {
        assert Unpacked(runs) + [] == Unpacked(runs);
      }
      stateInCh, stateInLen := NO_CHAR, 0;
    }

    /** ADD_CHAR_TO_BLOCK. */
    method AddCharToBlock(zchh: Byte)
      requires Valid() && nblock + 5 <= block.Length && (stateInCh == NO_CHAR ==> runs == [])
      modifies this, block
      ensures Valid() && Held() == old(Held()) + [zchh] && nblock <= old(nblock) + 5 && stateInCh < 256
      ensures old(nblock) <= nblock
    {
      hide Packs, Unpacked, Rep, UpdateAll, Update;
      ghost var r := Run(if stateInCh < 256 then stateInCh else 0, stateInLen);
      ghost var held := Unpacked(runs);
      CoverSize(block[..nblock], inUse, blockCRC, table, runs);
      if zchh != stateInCh && stateInLen == 1 {
        PackedSnoc(runs, r);
        ghost var before, used, crc := block[..nblock], inUse, blockCRC;
        var ch: Byte := stateInCh;
        UpdateMany(table, blockCRC, ch, 0);
        blockCRC := Update(table, blockCRC, ch);
        inUse := inUse[stateInCh := true];
        Put(ch);
        OneByteRun(ch);
        RunPacked(before, used, crc, table, runs, r, inUse, blockCRC);
        runs := runs + [r];
        NewRun(runs, zchh);
        stateInCh := zchh;
      } else if zchh != stateInCh || stateInLen == 255 {
        if stateInCh < 256 {
          PackedSnoc(runs, r);
          AddPairToBlock();
        } else {
          assert held + [] == held;
        }
        NewRun(runs, zchh);
        stateInCh, stateInLen := zchh, 1;
      } else {
        RunGrows(runs, stateInCh, stateInLen);
        stateInLen := stateInLen + 1;
      }
    }
  }

  lemma OneByteRun(ch: Byte)
    ensures RunBytes(Run(ch, 1)) == [ch] && Rep(ch, 1) == Rep(ch, 0 + 1)
  {
  }
}
