/** BZ2_decompress (decompress.c) on the fields of its DState: one arm of the
    switch at a time, with the locals in a save area between calls. Every arm
    does what the decoder machine does in one step. */
module BlockReader {
  import opened Arith
  import opened Bits
  import opened Rotations
  import opened MoveToFront
  import opened GenerateMtf
  import opened CanonicalCode
  import opened DecoderMachine
  import opened DecoderBounds
  import opened TwoLevelMtf
  import DecoderLoops

  /** The `case` labels, families of them by number; XIdle after a return that
      is not BZ_OK. */
  datatype Label =
    | XMagic(k: nat) | XBlkHdr(k: nat) | XBcrc(k: nat) | XRandBit | XOrigPtr(k: nat)
    | XMapping1 | XMapping2 | XSelector1 | XSelector2 | XSelector3
    | XCoding1 | XCoding2 | XCoding3
    | XMtf1 | XMtf2 | XMtf3 | XMtf4 | XMtf5 | XMtf6
    | XOutput | XEndHdr(k: nat) | XCcrc(k: nat) | XIdle(code: ReturnCode)

  /** The locals of BZ2_decompress, as they are saved and restored. */
  datatype Locals = Locals(
    i: nat, j: nat, t: nat, alphaSize: nat, nGroups: nat, nSelectors: nat, eob: nat,
    groupNo: int, groupPos: nat, nextSym: nat, nblockMAX: nat, nblock: nat, es: int, n: nat, curr: int,
    zn: nat, zvec: nat, gSel: nat, gMinlen: nat)

  function NoLocals(): Locals { Locals(0, 0, 0, 0, 0, 0, 0, 0, 0, 0, 0, 0, 0, 0, 0, 0, 0, 0, 0) }

  lemma NextRowIs(rows: seq<bool>, i: nat, r: nat)
    requires i <= r <= |rows| && (r < |rows| ==> rows[r]) && forall k :: i <= k < r ==> !rows[k]
    ensures NextRow(rows, i) == r
  {
  }

  function Copies<T>(n: nat, x: T): (r: seq<T>)
    ensures |r| == n && forall i :: 0 <= i < n ==> r[i] == x
  {
    seq(n, _ => x)
  }

  /** The locals that stay as they are while the symbols are read. */
  function Kept(v: Locals): Locals {
    NoLocals().(alphaSize := v.alphaSize, nGroups := v.nGroups, nSelectors := v.nSelectors, eob := v.eob,
                nblockMAX := v.nblockMAX)
  }

  /** Where in the groups the decoder is, and which table it uses. */
  ghost predicate GroupTied(t: Tables, groupNo: int, groupPos: nat, v: Locals) {
    && groupNo == v.groupNo && groupPos == v.groupPos
    && (0 <= groupNo < |t.selector| && t.selector[groupNo] < |t.len| ==>
          v.gSel == t.selector[groupNo] && v.gMinlen == MinLen(t.len[v.gSel]))
  }

  ghost predicate GoalTied(goal: Goal, v: Locals, any: bool) {
    match goal
    case AnySymbol => any
    case RunDigit(es, n) => !any && v.es == es && v.n == n
  }

  function WithLength(len: seq<seq<Len>>, t: nat, i: nat, c: Len): seq<seq<Len>>
    requires t < |len| && i < |len[t]|
  {
    var row: seq<Len> := len[t][..i] + [c] + len[t][i + 1..];
    len[t := row]
  }

  class Reader {
    const small: bool
    const mtf: MtfList
    var state: Label
    var save: Locals
    var blockSize100k: nat
    var storedBlockCRC: nat
    var storedCombinedCRC: nat
    var blockRandomised: bool
    var origPtr: nat
    var inUse16: seq<bool>
    var inUse: seq<bool>
    var nInUse: nat
    var seqToUnseq: seq<nat>
    var selectorMtf: seq<nat>
    var selector: seq<nat>
    var len: seq<seq<Len>>
    var limit: seq<seq<int>>
    var base: seq<seq<int>>
    var perm: seq<seq<nat>>
    var minLens: seq<nat>
    var unzftab: seq<nat>
    const cftab: array<nat>
    var tt: array<nat>
    var ll16: array<nat>
    var ll4: array<Byte>
    /** The state of the decoder machine that all this stands for. */
    ghost var s: State

    // ---------- What stands for what ----------

    ghost function Arrays(): set<object>
      reads this`tt, this`ll16, this`ll4
    {
      {mtf, mtf.mtfa, mtf.mtfbase, cftab, tt, ll16, ll4}
    }

    /** Fixed sizes, and arrays that are not shared. */
    ghost predicate Shape()
      reads this`tt, this`ll16, this`ll4, this`inUse16, this`inUse, this`seqToUnseq, this`unzftab, this`len, this`limit, this`base,
        this`perm, this`minLens
    {
      && mtf.mtfa.Length == MTFA_SIZE && mtf.mtfbase.Length == 16 && mtf.mtfa != mtf.mtfbase
      && cftab.Length == 257 && cftab !in {mtf.mtfa, mtf.mtfbase}
      && tt !in {mtf.mtfa, mtf.mtfbase, cftab} && ll16 !in {mtf.mtfa, mtf.mtfbase, cftab}
      && ll4 as object !in {cftab, ll16}
      && |inUse16| == 16 && |inUse| == 256 && |seqToUnseq| == 256 && |unzftab| == 256
      && |len| == |limit| == |base| == |perm| == |minLens| == 6
      && forall g :: 0 <= g < 6 ==> |len[g]| == |limit[g]| == |base[g]| == |perm[g]| == MAX_ALPHA_SIZE
    }

    /** The array the block's bytes go into has the size announced. */
    ghost predicate Buffer()
      reads this`tt, this`ll16, this`ll4, this`blockSize100k
    {
      if small then ll16.Length == 100000 * blockSize100k && ll4.Length == (1 + 100000 * blockSize100k) / 2
      else tt.Length == 100000 * blockSize100k
    }

    ghost predicate HeadTied(h: Head)
      reads this`blockSize100k, this`storedBlockCRC, this`blockRandomised, this`origPtr, this`tt, this`ll16, this`ll4
    {
      h == Head(blockSize100k, storedBlockCRC, blockRandomised, origPtr) && Buffer()
    }

    ghost predicate StartTied()
      reads this`s, this`state, this`storedCombinedCRC
    {
      match s
      case Magic(k) => state == XMagic(k)
      case Level => state == XMagic(4)
      case EndHdr(k) => state == XEndHdr(k)
      case Ccrc(k, crc) => state == XCcrc(k) && storedCombinedCRC == crc
      case Stop(code) => state == XIdle(code)
      case _ => false
    }

    ghost predicate HeadingTied()
      reads this`s, this`state, this`blockSize100k, this`storedBlockCRC, this`blockRandomised, this`origPtr,
        this`tt, this`ll16, this`ll4
    {
      match s
      case BlkHdr(level, k) => state == XBlkHdr(k) && blockSize100k == level && Buffer()
      case Bcrc(level, k, crc) => state == XBcrc(k) && blockSize100k == level && storedBlockCRC == crc && Buffer()
      case RandBit(level, crc) => state == XRandBit && blockSize100k == level && storedBlockCRC == crc && Buffer()
      case OrigPtr(h, k) => state == XOrigPtr(k) && HeadTied(h)
      case _ => false
    }

    /** The rows in use, as far as they have been read. */
    ghost predicate RowsRead(rows: seq<bool>, i: nat)
      reads this`inUse16
    {
      i == |rows| <= |inUse16| && inUse16[..i] == rows
    }

    /** The bytes in use, as far as they have been read; the others are clear. */
    ghost predicate BytesRead(u: seq<bool>, i: nat, j: nat)
      reads this`inUse
    {
      i * 16 + j == |u| <= |inUse| && inUse[..|u|] == u && forall k :: |u| <= k < |inUse| ==> !inUse[k]
    }

    ghost predicate MappingTied(v: Locals)
      reads this`s, this`state, this`blockSize100k, this`storedBlockCRC, this`blockRandomised, this`origPtr,
        this`tt, this`ll16, this`ll4, this`inUse16, this`inUse
    {
      match s
      case Mapping1(h, rows) => state == XMapping1 && HeadTied(h) && RowsRead(rows, v.i)
      case Mapping2(h, rows, u, j) =>
        state == XMapping2 && HeadTied(h) && inUse16 == rows && v.j == j && BytesRead(u, v.i, j)
      case _ => false
    }

    ghost predicate MapTied(u: seq<bool>, alphaSize: nat)
      reads this`inUse, this`nInUse, this`seqToUnseq
    {
      && inUse == u && |u| == 256 && nInUse == |Used(u, 256)| <= |seqToUnseq|
      && seqToUnseq[..nInUse] == Used(u, 256) && alphaSize == nInUse + 2
    }

    ghost predicate SelectingTied(v: Locals)
      reads this`s, this`state, this`blockSize100k, this`storedBlockCRC, this`blockRandomised, this`origPtr,
        this`tt, this`ll16, this`ll4, this`inUse, this`nInUse, this`seqToUnseq, this`selectorMtf
    {
      match s
      case Selector1(h, u) => state == XSelector1 && HeadTied(h) && MapTied(u, v.alphaSize)
      case Selector2(h, u, nGroups) =>
        state == XSelector2 && HeadTied(h) && MapTied(u, v.alphaSize) && v.nGroups == nGroups
      case Selector3(h, u, nGroups, nSelectors, ranks, j) =>
        && state == XSelector3 && HeadTied(h) && MapTied(u, v.alphaSize) && v.nGroups == nGroups
        && v.nSelectors == nSelectors && v.i == |ranks| && selectorMtf == ranks && v.j == j
      case _ => false
    }

    /** The selectors, and the code lengths of the tables read so far. */
    ghost predicate RowsTied(sel: seq<nat>, rows: seq<seq<Len>>, nSelectors: nat, alphaSize: nat)
      reads this`len, this`selector
    {
      && nSelectors == |sel| && selector == sel && |rows| <= |len|
      && forall g :: 0 <= g < |rows| ==> alphaSize <= |len[g]| && len[g][..alphaSize] == rows[g]
    }

    ghost predicate RowTied(row: seq<Len>, t: nat, i: nat)
      reads this`len
    {
      t < |len| && i == |row| <= |len[t]| && len[t][..i] == row
    }

    ghost predicate LengthsTied(v: Locals)
      reads this`s, this`state, this`blockSize100k, this`storedBlockCRC, this`blockRandomised, this`origPtr,
        this`tt, this`ll16, this`ll4, this`inUse, this`nInUse, this`seqToUnseq, this`selector, this`len
    {
      match s
      case Coding1(h, u, nGroups, sel, rows) =>
        && state == XCoding1 && HeadTied(h) && MapTied(u, v.alphaSize) && v.nGroups == nGroups
        && RowsTied(sel, rows, v.nSelectors, v.alphaSize) && v.t == |rows|
      case Coding2(h, u, nGroups, sel, rows, row, curr) =>
        && state == XCoding2 && HeadTied(h) && MapTied(u, v.alphaSize) && v.nGroups == nGroups
        && RowsTied(sel, rows, v.nSelectors, v.alphaSize) && v.t == |rows| && RowTied(row, v.t, v.i) && v.curr == curr
      case Coding3(h, u, nGroups, sel, rows, row, curr) =>
        && state == XCoding3 && HeadTied(h) && MapTied(u, v.alphaSize) && v.nGroups == nGroups
        && RowsTied(sel, rows, v.nSelectors, v.alphaSize) && v.t == |rows| && RowTied(row, v.t, v.i) && v.curr == curr
      case _ => false
    }

    /** One decoding table, as far as it is looked up. */
    ghost predicate TableTied(g: nat, row: seq<Len>)
      requires g < |minLens| && g < |limit| && g < |base| && g < |perm|
      reads this`minLens, this`limit, this`base, this`perm
    {
      && minLens[g] == MinLen(row) && |limit[g]| > 20 && |base[g]| > 20
      && (forall n :: MinLen(row) <= n <= 20 ==> limit[g][n] == LimitFor(row, n) && base[g][n] == BaseFor(row, n))
      && |row| <= |perm[g]| && perm[g][..|row|] == PermFor(row)
    }

    ghost predicate TablesTied(rows: seq<seq<Len>>)
      reads this`minLens, this`limit, this`base, this`perm
    {
      && |rows| <= |minLens| && |rows| <= |limit| && |rows| <= |base| && |rows| <= |perm|
      && forall g :: 0 <= g < |rows| ==> TableTied(g, rows[g])
    }

    /** What stays as it is while the symbols are read. */
    ghost predicate Setting(h: Head, t: Tables, kept: Locals)
      reads this`blockSize100k, this`storedBlockCRC, this`blockRandomised, this`origPtr, this`tt, this`ll16, this`ll4,
        this`inUse, this`nInUse, this`seqToUnseq, this`selector, this`len, this`minLens, this`limit, this`base, this`perm
    {
      && HeadTied(h) && MapTied(t.inUse, kept.alphaSize) && RowsTied(t.selector, t.len, kept.nSelectors, kept.alphaSize)
      && kept.nGroups == |t.len| && kept.eob == nInUse + 1 && TablesTied(t.len) && kept.nblockMAX == 100000 * h.level
    }

    ghost predicate ListTied(list: seq<nat>)
      reads mtf, mtf.mtfa, mtf.mtfbase
    {
      mtf.Valid() && list == mtf.List()
    }

    function Bytes(): array<nat>
      reads this`tt, this`ll16
    {
      if small then ll16 else tt
    }

    ghost predicate Stored(bytes: Block, nblock: nat)
      reads this`tt, this`ll16, tt, ll16
    {
      |bytes| == nblock <= Bytes().Length && forall k :: 0 <= k < nblock ==> Bytes()[k] == bytes[k]
    }

    ghost predicate WorkTied(h: Head, t: Tables, w: Work, v: Locals)
      reads this`blockSize100k, this`storedBlockCRC, this`blockRandomised, this`origPtr, this`tt, this`ll16, this`ll4,
        this`inUse, this`nInUse, this`seqToUnseq, this`selector, this`len, this`minLens, this`limit, this`base, this`perm,
        this`unzftab, tt, ll16, mtf, mtf.mtfa, mtf.mtfbase
    {
      && Setting(h, t, Kept(v)) && GroupTied(t, w.groupNo, w.groupPos, v)
      && ListTied(w.list) && Stored(w.bytes, v.nblock) && unzftab == w.unzftab
    }

    /** cftab holds the sums of unzftab. */
    ghost predicate SummedUp()
      reads this`unzftab, cftab
    {
      cftab.Length == 257 && |unzftab| == 256 && forall k :: 0 <= k <= 256 ==> cftab[k] == Cftab(unzftab, k)
    }

    ghost predicate SymbolsTied(v: Locals)
      reads this`s, this`state, this`blockSize100k, this`storedBlockCRC, this`blockRandomised, this`origPtr,
        this`tt, this`ll16, this`ll4, this`inUse, this`nInUse, this`seqToUnseq, this`selector, this`len, this`minLens,
        this`limit, this`base, this`perm, this`unzftab, cftab, tt, ll16, mtf, mtf.mtfa, mtf.mtfbase
    {
      match s
      case MtfFirst(h, t, w, goal, zn) =>
        && state in {XMtf1, XMtf3, XMtf5} && WorkTied(h, t, w, v) && GoalTied(goal, v, state != XMtf3)
        && v.zn == zn >= v.gMinlen
      case MtfNext(h, t, w, goal, zn, zvec) =>
        && state in {XMtf2, XMtf4, XMtf6} && WorkTied(h, t, w, v) && GoalTied(goal, v, state != XMtf4)
        && v.zn == zn >= v.gMinlen && v.zvec == zvec
      case Output(h, bytes, u) =>
        state == XOutput && HeadTied(h) && Stored(bytes, v.nblock) && unzftab == u && SummedUp()
      case _ => false
    }

    /** The locals v and the fields stand for the machine's state s. */
    ghost predicate Tied(v: Locals)
      reads this, cftab, tt, ll16, mtf, mtf.mtfa, mtf.mtfbase
    {
      StartTied() || HeadingTied() || MappingTied(v) || SelectingTied(v) || LengthsTied(v) || SymbolsTied(v)
    }

    /** BZ2_bzDecompressInit, as far as the reading half goes. */
    constructor (small: bool)
      ensures Shape() && Tied(save) && s == Magic(1) && this.small == small
      ensures fresh(Arrays())
    {
      this.small := small;
      mtf := new MtfList();
      cftab := new nat[257];
      state, save, s := XMagic(1), NoLocals(), Magic(1);
      blockSize100k, storedBlockCRC, storedCombinedCRC, blockRandomised, origPtr, nInUse := 0, 0, 0, false, 0, 0;
      inUse16, inUse := Nothing(16), Nothing(256);
      seqToUnseq, unzftab, minLens := Copies(256, 0), Copies(256, 0), Copies(6, 0);
      selectorMtf, selector := [], [];
      len := Copies(6, Copies(MAX_ALPHA_SIZE, 1));
      limit, base := Copies(6, Copies(MAX_ALPHA_SIZE, 0)), Copies(6, Copies(MAX_ALPHA_SIZE, 0));
      perm := Copies(6, Copies(MAX_ALPHA_SIZE, 0));
      tt, ll16, ll4 := new nat[0], new nat[0], new Byte[0];
    }

    /** RETURN with anything but BZ_OK. */
    method Fail(code: ReturnCode)
      modifies this`state, this`s
      ensures s == Stop(code) && StartTied()
    {
      state := XIdle(code);
      s := Stop(code);
    }

    // ---------- Headers ----------

    method MagicArm(uc: nat, ghost k: nat)
      requires s == Magic(k) && StartTied() && k <= 3
      modifies this`state, this`s
      ensures s == AfterMagic(k, uc) && StartTied()
    {
      if uc != (if state.k == 1 then 0x42 else if state.k == 2 then 0x5A else 0x68) {
        Fail(DataErrorMagic);
      } else {
        s := AfterMagic(k, uc);
        state := XMagic(state.k + 1);
      }
    }

    /** The fourth byte announces the block size. */
    method LevelArm(uc: nat)
      requires Shape()
      modifies this`state, this`blockSize100k, this`tt, this`ll16, this`ll4, this`s
      ensures Shape() && s == (if uc < 0x31 || uc > 0x39 then Stop(DataErrorMagic) else BlkHdr(uc - 0x30, 1))
      ensures (StartTied() || HeadingTied()) && fresh(Arrays() - old(Arrays()))
    {
      hide Buffer, Shape;
      if uc < 0x31 || uc > 0x39 {
        Fail(DataErrorMagic);
      } else {
        Allocate(uc - 0x30);
        state := XBlkHdr(1);
        s := BlkHdr(uc - 0x30, 1);
      }
    }

    /** Arrays for blocks of the size announced. */
    method Allocate(level: nat)
      requires Shape()
      modifies this`blockSize100k, this`tt, this`ll16, this`ll4
      ensures Shape() && Buffer() && blockSize100k == level && fresh(Arrays() - old(Arrays()))
    {
      blockSize100k := level;
      if small {
        ll16, ll4 := new nat[100000 * blockSize100k], new Byte[(1 + 100000 * blockSize100k) / 2];
      } else {
        tt := new nat[100000 * blockSize100k];
      }
    }

    method BlockMagicArm(uc: nat, ghost level: nat, ghost k: nat)
      requires s == BlkHdr(level, k) && HeadingTied() && 1 <= k <= 6
      modifies this`state, this`storedBlockCRC, this`s
      ensures s == AfterBlkHdr(level, k, uc) && (StartTied() || HeadingTied())
    {
      hide Buffer;
      s := AfterBlkHdr(level, k, uc);
      if state.k == 1 && uc == 0x17 {
        state := XEndHdr(2);
      } else if uc != BlockMagic(state.k) {
        state := XIdle(DataError);
      } else if state.k == 6 {
        storedBlockCRC := 0;
        state := XBcrc(1);
      } else {
        state := XBlkHdr(state.k + 1);
      }
    }

    method CrcArm(uc: nat, ghost level: nat, ghost k: nat, ghost crc: nat)
      requires s == Bcrc(level, k, crc) && HeadingTied() && 1 <= k <= 4
      modifies this`state, this`storedBlockCRC, this`s
      ensures s == (if k >= 4 then RandBit(level, crc * 256 + uc) else Bcrc(level, k + 1, crc * 256 + uc)) && HeadingTied()
    {
      hide Buffer;
      storedBlockCRC := storedBlockCRC * 256 + uc;
      s := if k >= 4 then RandBit(level, crc * 256 + uc) else Bcrc(level, k + 1, crc * 256 + uc);
      state := if state.k == 4 then XRandBit else XBcrc(state.k + 1);
    }

    method RandomisedArm(uc: nat, ghost level: nat, ghost crc: nat)
      requires s == RandBit(level, crc) && HeadingTied()
      modifies this`state, this`blockRandomised, this`origPtr, this`s
      ensures s == OrigPtr(Head(level, crc, uc == 1, 0), 1) && HeadingTied()
    {
      hide Buffer;
      blockRandomised := uc == 1;
      origPtr := 0;
      state := XOrigPtr(1);
      s := OrigPtr(Head(level, crc, uc == 1, 0), 1);
    }

    method OrigPtrArm(v: Locals, uc: nat, ghost h: Head, ghost k: nat) returns (v': Locals)
      requires s == OrigPtr(h, k) && HeadingTied() && 1 <= k <= 3
      modifies this`state, this`origPtr, this`s
      ensures s == AfterOrigPtr(h, k, uc) && (StartTied() || HeadingTied() || MappingTied(v'))
    {
      hide Buffer;
      origPtr := origPtr * 256 + uc;
      v' := v.(i := 0);
      s := AfterOrigPtr(h, k, uc);
      if state.k < 3 {
        state := XOrigPtr(state.k + 1);
      } else if origPtr > 10 + 100000 * blockSize100k {
        state := XIdle(DataError);
      } else {
        assert inUse16[..0] == [];
        state := XMapping1;
      }
    }

    method EndMagicArm(uc: nat, ghost k: nat)
      requires s == EndHdr(k) && StartTied() && 2 <= k <= 6
      modifies this`state, this`storedCombinedCRC, this`s
      ensures s == AfterEndHdr(k, uc) && StartTied()
    {
      s := AfterEndHdr(k, uc);
      if uc != (if state.k == 2 then 0x72 else if state.k == 3 then 0x45 else if state.k == 4 then 0x38
                else if state.k == 5 then 0x50 else 0x90) {
        state := XIdle(DataError);
      } else if state.k == 6 {
        storedCombinedCRC := 0;
        state := XCcrc(1);
      } else {
        state := XEndHdr(state.k + 1);
      }
    }

    method CombinedCrcArm(uc: nat, ghost k: nat, ghost crc: nat)
      requires s == Ccrc(k, crc) && StartTied() && 1 <= k <= 4
      modifies this`state, this`storedCombinedCRC, this`s
      ensures s == (if k >= 4 then Stop(StreamEnd(crc * 256 + uc)) else Ccrc(k + 1, crc * 256 + uc)) && StartTied()
    {
      storedCombinedCRC := storedCombinedCRC * 256 + uc;
      s := if k >= 4 then Stop(StreamEnd(crc * 256 + uc)) else Ccrc(k + 1, crc * 256 + uc);
      state := if state.k == 4 then XIdle(StreamEnd(storedCombinedCRC)) else XCcrc(state.k + 1);
    }

    // ---------- The map of bytes in use ----------

    /** makeMaps_d. */
    method FillMap(v: Locals) returns (v': Locals)
      requires Shape()
      modifies this`nInUse, this`seqToUnseq
      ensures Shape() && v' == v.(alphaSize := nInUse + 2) && nInUse == |Used(inUse, |inUse|)|
      ensures MapTied(inUse, v'.alphaSize)
    {
      hide Used;
      var seqs := new nat[256];
      nInUse := DecoderLoops.MakeMapsD(inUse, seqs);
      seqToUnseq := seqs[..];
      v' := v.(alphaSize := nInUse + 2);
    }

    method FinishMap(v: Locals, ghost h: Head) returns (v': Locals)
      requires Shape() && HeadTied(h)
      modifies this`state, this`nInUse, this`seqToUnseq, this`s
      ensures Shape() && s == (if |Used(inUse, |inUse|)| == 0 then Stop(DataError) else Selector1(h, inUse))
      ensures SelectingTied(v') || StartTied()
    {
      hide Used, HeadTied, MapTied, Shape;
      v' := FillMap(v);
      if nInUse == 0 {
        Fail(DataError);
      } else {
        state := XSelector1;
        s := Selector1(h, inUse);
      }
    }

    lemma MapSizes()
      requires Shape()
      ensures |inUse16| == 16 && |inUse| == 256
    {
    }

    /** The rows that are not in use leave their bytes clear. */
    lemma RowsSkipped(u: seq<bool>, from: nat, i: nat)
      requires BytesRead(u, from, 0) && from <= i <= 16 && |inUse| == 256
      ensures BytesRead(u + Nothing(16 * (i - from)), i, 0)
      ensures i == 16 ==> inUse == u + Nothing(16 * (i - from))
    {
    }

    /** The loop over the rows. */
    method FindRow(from: nat) returns (i: nat)
      requires |inUse16| == 16 && from <= 16
      ensures i == NextRow(inUse16, from)
    {
      hide NextRow;
      i := from;
      while i < 16 && !inUse16[i]
        invariant from <= i <= 16 && forall k :: from <= k < i ==> !inUse16[k]
      {
        i := i + 1;
      }
      NextRowIs(inUse16, from, i);
    }

    method EnterNextRow(v: Locals, ghost h: Head, ghost u: seq<bool>) returns (v': Locals)
      requires Shape() && HeadTied(h) && |u| <= 256 && BytesRead(u, v.i, 0)
      modifies this`state, this`nInUse, this`seqToUnseq, this`s
      ensures Shape() && s == EnterRow(h, inUse16, u) && (MappingTied(v') || SelectingTied(v') || StartTied())
    {
      hide Used, HeadTied, MappingTied, SelectingTied, StartTied, NextRow, Shape, BytesRead;
      MapSizes();
      ReadSize(u, v.i);
      var i := FindRow(v.i);
      ghost var filled := u + Nothing(16 * (i - v.i));
      RowsSkipped(u, v.i, i);
      v' := v.(i := i, j := 0);
      if i < 16 {
        s := Mapping2(h, inUse16, filled, 0);
        state := XMapping2;
        RowTurn(v');
      } else {
        v' := FinishMap(v', h);
      }
    }

    lemma RowTurn(v: Locals)
      requires s.Mapping2? && state == XMapping2 && HeadTied(s.h) && inUse16 == s.inUse16 && v.j == s.j
      requires BytesRead(s.inUse, v.i, s.j)
      ensures MappingTied(v)
    {
      hide HeadTied, BytesRead;
    }

    lemma ReadSize(u: seq<bool>, i: nat)
      requires BytesRead(u, i, 0)
      ensures |u| == i * 16
    {
    }

    method SetRow(i: nat, b: bool)
      requires Shape() && i < 16
      modifies this`inUse16
      ensures Shape() && |old(inUse16)| == 16 && inUse16 == old(inUse16)[i := b]
    {
      inUse16 := inUse16[i := b];
    }

    method SetByte(k: nat)
      requires Shape() && k < 256
      modifies this`inUse
      ensures Shape() && |old(inUse)| == 256 && inUse == old(inUse)[k := true]
    {
      inUse := inUse[k := true];
    }

    method ClearBytes()
      requires Shape()
      modifies this`inUse
      ensures Shape() && BytesRead([], 0, 0)
    {
      inUse := seq(256, _ => false);
    }

    lemma MapFacts(v: Locals)
      requires s.Mapping1? && MappingTied(v)
      ensures state == XMapping1 && HeadTied(s.h) && RowsRead(s.inUse16, v.i)
    {
      hide HeadTied, RowsRead;
    }

    lemma MapTurn(v: Locals)
      requires s.Mapping1? && state == XMapping1 && HeadTied(s.h) && RowsRead(s.inUse16, v.i)
      ensures MappingTied(v)
    {
      hide HeadTied, RowsRead;
    }

    method MapArm1(v: Locals, uc: nat, ghost h: Head, ghost rows: seq<bool>) returns (v': Locals)
      requires Shape() && s == Mapping1(h, rows) && MappingTied(v) && |rows| < 16
      modifies this`state, this`inUse16, this`inUse, this`nInUse, this`seqToUnseq, this`s
      ensures Shape() && s == AfterMapping1(h, rows, uc) && (MappingTied(v') || SelectingTied(v') || StartTied())
    {
      hide Used, EnterRow, HeadTied, MappingTied, SelectingTied, StartTied, Shape, BytesRead;
      MapSizes();
      MapFacts(v);
      ghost var more := rows + [uc == 1];
      SetRow(v.i, uc == 1);
      v' := v.(i := v.i + 1);
      assert inUse16[..v'.i] == more;
      if v'.i < 16 {
        s := Mapping1(h, more);
        MapTurn(v');
      } else {
        assert inUse16 == more;
        ClearBytes();
        v' := EnterNextRow(v'.(i := 0), h, []);
      }
    }

    /** One more byte of row i. */
    lemma ByteRead(u: seq<bool>, i: nat, j: nat, b: bool, was: seq<bool>)
      requires |was| == |inUse| == 256 && i * 16 + j == |u| < 256 && was[..|u|] == u
      requires (forall k :: |u| <= k < 256 ==> !was[k]) && inUse == if b then was[i * 16 + j := true] else was
      ensures BytesRead(u + [b], i, j + 1) && (j == 15 ==> BytesRead(u + [b], i + 1, 0))
    {
    }

    lemma BytesFacts(u: seq<bool>, i: nat, j: nat)
      requires Shape() && BytesRead(u, i, j)
      ensures |inUse| == 256 && i * 16 + j == |u| && inUse[..|u|] == u && forall k :: |u| <= k < 256 ==> !inUse[k]
    {
    }

    lemma RowFacts(v: Locals)
      requires s.Mapping2? && MappingTied(v)
      ensures state == XMapping2 && HeadTied(s.h) && inUse16 == s.inUse16 && v.j == s.j && BytesRead(s.inUse, v.i, s.j)
    {
      hide HeadTied, BytesRead;
    }

    method MapArm2(v: Locals, uc: nat, ghost h: Head, ghost rows: seq<bool>, ghost u: seq<bool>, ghost j: nat)
      returns (v': Locals)
      requires Shape() && s == Mapping2(h, rows, u, j) && MappingTied(v) && j < 16 && |u| < 256
      modifies this`state, this`inUse, this`nInUse, this`seqToUnseq, this`s
      ensures Shape() && s == AfterMapping2(h, rows, u, j, uc) && (MappingTied(v') || SelectingTied(v') || StartTied())
    {
      hide Used, EnterRow, HeadTied, MappingTied, SelectingTied, StartTied, Shape, BytesRead;
      RowFacts(v);
      BytesFacts(u, v.i, j);
      ghost var more, was := u + [uc == 1], inUse;
      if uc == 1 { SetByte(v.i * 16 + v.j); }
      ByteRead(u, v.i, j, uc == 1, was);
      v' := v.(j := v.j + 1);
      if v'.j < 16 {
        s := Mapping2(h, rows, more, j + 1);
        RowTurn(v');
      } else {
        v' := EnterNextRow(v'.(i := v.i + 1), h, more);
      }
    }

    // ---------- Selectors ----------

    method GroupsArm(v: Locals, bits: nat, ghost h: Head, ghost u: seq<bool>) returns (v': Locals)
      requires s == Selector1(h, u) && SelectingTied(v)
      modifies this`state, this`s
      ensures s == (if bits < 2 || bits > 6 then Stop(DataError) else Selector2(h, u, bits))
      ensures StartTied() || SelectingTied(v')
    {
      hide HeadTied, MapTied;
      v' := v.(nGroups := bits);
      if bits < 2 || bits > 6 {
        Fail(DataError);
      } else {
        state := XSelector2;
        s := Selector2(h, u, bits);
      }
    }

    method CountArm(v: Locals, bits: nat, ghost h: Head, ghost u: seq<bool>, ghost nGroups: nat) returns (v': Locals)
      requires s == Selector2(h, u, nGroups) && SelectingTied(v)
      modifies this`state, this`selectorMtf, this`s
      ensures s == (if bits < 1 then Stop(DataError) else Selector3(h, u, nGroups, bits, [], 0))
      ensures StartTied() || SelectingTied(v')
    {
      hide HeadTied, MapTied;
      v' := v.(nSelectors := bits, i := 0, j := 0);
      selectorMtf := [];
      if bits < 1 {
        Fail(DataError);
      } else {
        state := XSelector3;
        s := Selector3(h, u, nGroups, bits, [], 0);
      }
    }

    /** One bit of a rank in unary; the last rank is followed by the undoing of
        the move-to-front. */
    method RankArm(v: Locals, bit: nat, ghost h: Head, ghost u: seq<bool>, ghost nGroups: nat, ghost nSelectors: nat,
                   ghost ranks: seq<nat>, ghost j: nat) returns (v': Locals)
      requires s == Selector3(h, u, nGroups, nSelectors, ranks, j) && SelectingTied(v)
      requires 2 <= nGroups <= 6 && |ranks| < nSelectors && j < nGroups && forall i :: 0 <= i < |ranks| ==> ranks[i] < nGroups
      modifies this`state, this`selectorMtf, this`selector, this`s
      ensures s == AfterSelector3(h, u, nGroups, nSelectors, ranks, j, bit)
      ensures StartTied() || SelectingTied(v') || LengthsTied(v')
    {
      hide HeadTied, MapTied, Unrank, LengthsTied;
      v' := v;
      if bit != 0 {
        v' := v.(j := v.j + 1);
        if v'.j >= v.nGroups {
          Fail(DataError);
        } else {
          s := Selector3(h, u, nGroups, nSelectors, ranks, j + 1);
        }
        return;
      }
      selectorMtf := selectorMtf + [v.j];
      v' := v.(i := v.i + 1, j := 0);
      if v'.i < v.nSelectors {
        s := Selector3(h, u, nGroups, nSelectors, ranks + [j], 0);
      } else {
        v' := LastRank(v', h, u, nGroups, ranks + [j]);
      }
    }

    /** Undo the move-to-front of the selectors. */
    method LastRank(v: Locals, ghost h: Head, ghost u: seq<bool>, ghost nGroups: nat, ghost ranks: seq<nat>)
      returns (v': Locals)
      requires HeadTied(h) && MapTied(u, v.alphaSize) && v.nGroups == nGroups <= 6 && v.nSelectors == |ranks|
      requires selectorMtf == ranks && forall i :: 0 <= i < |ranks| ==> ranks[i] < nGroups
      modifies this`state, this`selector, this`s
      ensures s == Coding1(h, u, nGroups, Unrank(ranks, Iota(nGroups)), []) && LengthsTied(v')
    {
      hide HeadTied, MapTied, Unrank;
      selector := DecoderLoops.UndoSelectors(selectorMtf, v.nGroups);
      v' := v.(t := 0);
      state := XCoding1;
      s := Coding1(h, u, nGroups, selector, []);
    }

    // ---------- Code lengths ----------

    /** The bounds check at the top of the delta loop. */
    method CheckCurr(v: Locals, ghost h: Head, ghost u: seq<bool>, ghost nGroups: nat, ghost sel: seq<nat>,
                     ghost rows: seq<seq<Len>>, ghost row: seq<Len>)
      requires HeadTied(h) && MapTied(u, v.alphaSize) && v.nGroups == nGroups
      requires RowsTied(sel, rows, v.nSelectors, v.alphaSize) && v.t == |rows| && RowTied(row, v.t, v.i)
      modifies this`state, this`s
      ensures s == CheckLength(h, u, nGroups, sel, rows, row, v.curr)
      ensures StartTied() || LengthsTied(v)
    {
      hide HeadTied, MapTied, RowsTied, RowTied;
      if v.curr < 1 || v.curr > 20 {
        Fail(DataError);
      } else {
        state := XCoding2;
        s := Coding2(h, u, nGroups, sel, rows, row, v.curr);
      }
    }

    method FirstLengthArm(v: Locals, bits: nat, ghost h: Head, ghost u: seq<bool>, ghost nGroups: nat, ghost sel: seq<nat>,
                          ghost rows: seq<seq<Len>>) returns (v': Locals)
      requires Shape() && s == Coding1(h, u, nGroups, sel, rows) && LengthsTied(v) && |rows| < 6
      modifies this`state, this`s
      ensures s == CheckLength(h, u, nGroups, sel, rows, [], bits)
      ensures StartTied() || LengthsTied(v')
    {
      hide HeadTied, MapTied, RowsTied, LengthsTied, StartTied;
      FirstFacts(v);
      v' := v.(curr := bits, i := 0);
      CheckCurr(v', h, u, nGroups, sel, rows, []);
    }

    lemma FirstFacts(v: Locals)
      requires Shape() && s.Coding1? && LengthsTied(v) && |s.len| < 6
      ensures HeadTied(s.h) && MapTied(s.inUse, v.alphaSize) && v.nGroups == s.nGroups
      ensures RowsTied(s.selector, s.len, v.nSelectors, v.alphaSize) && v.t == |s.len| && RowTied([], v.t, 0)
    {
      hide HeadTied, MapTied, RowsTied;
      assert len[v.t][..0] == [];
    }

    method StepArm(v: Locals, bit: nat, ghost h: Head, ghost u: seq<bool>, ghost nGroups: nat, ghost sel: seq<nat>,
                   ghost rows: seq<seq<Len>>, ghost row: seq<Len>, ghost curr: Len) returns (v': Locals)
      requires s == Coding3(h, u, nGroups, sel, rows, row, curr) && LengthsTied(v)
      modifies this`state, this`s
      ensures s == CheckLength(h, u, nGroups, sel, rows, row, if bit == 0 then curr + 1 else curr - 1)
      ensures StartTied() || LengthsTied(v')
    {
      hide HeadTied, MapTied, RowsTied, RowTied;
      v' := v.(curr := if bit == 0 then v.curr + 1 else v.curr - 1);
      CheckCurr(v', h, u, nGroups, sel, rows, row);
    }

    /** One more length of row t. */
    lemma LengthKept(sel: seq<nat>, rows: seq<seq<Len>>, row: seq<Len>, curr: Len, was: seq<seq<Len>>, v: Locals)
      requires Shape() && |was| == 6 && (forall g :: 0 <= g < 6 ==> |was[g]| == MAX_ALPHA_SIZE)
      requires v.t == |rows| < 6 && v.i == |row| < v.alphaSize <= MAX_ALPHA_SIZE
      requires len == WithLength(was, v.t, v.i, curr) && selector == sel && v.nSelectors == |sel|
      requires (forall g :: 0 <= g < |rows| ==> was[g][..v.alphaSize] == rows[g]) && was[v.t][..v.i] == row
      ensures RowsTied(sel, rows, v.nSelectors, v.alphaSize) && RowTied(row + [curr], v.t, v.i + 1)
      ensures v.i + 1 == v.alphaSize ==> RowsTied(sel, rows + [row + [curr]], v.nSelectors, v.alphaSize)
    {
    }

    method KeepLength(v: Locals, ghost sel: seq<nat>, ghost rows: seq<seq<Len>>, ghost row: seq<Len>)
      requires Shape() && 1 <= v.curr <= 20 && v.t < 6 && v.i < v.alphaSize <= MAX_ALPHA_SIZE
      requires RowsTied(sel, rows, v.nSelectors, v.alphaSize) && v.t == |rows| && RowTied(row, v.t, v.i)
      modifies this`len
      ensures Shape()
      ensures RowsTied(sel, rows, v.nSelectors, v.alphaSize) && RowTied(row + [v.curr], v.t, v.i + 1)
      ensures v.i + 1 == v.alphaSize ==> RowsTied(sel, rows + [row + [v.curr]], v.nSelectors, v.alphaSize)
    {
      ghost var was := len;
      var c: Len := v.curr;
      len := WithLength(len, v.t, v.i, c);
      LengthKept(sel, rows, row, c, was, v);
    }

    // ---------- The decoding tables ----------

    /** Table t as BZ2_hbCreateDecodeTables left it. */
    method SetTable(t: nat, lim: seq<int>, bas: seq<int>, per: seq<nat>, minLen: nat)
      requires Shape() && t < 6 && |lim| == |bas| == |per| == MAX_ALPHA_SIZE
      modifies this`limit, this`base, this`perm, this`minLens
      ensures Shape() && |limit| == |base| == |perm| == |minLens| == 6
      ensures limit[t] == lim && base[t] == bas && perm[t] == per && minLens[t] == minLen
      ensures |old(limit)| == |old(base)| == |old(perm)| == |old(minLens)| == 6
      ensures forall g :: 0 <= g < 6 && g != t ==>
        && limit[g] == old(limit)[g] && base[g] == old(base)[g] && perm[g] == old(perm)[g] && minLens[g] == old(minLens)[g]
    {
      limit, base, perm, minLens := limit[t := lim], base[t := bas], perm[t := per], minLens[t := minLen];
    }

    lemma RowOf(t: nat, alphaSize: nat)
      requires Shape() && t < 6 && alphaSize <= MAX_ALPHA_SIZE
      ensures t < |len| && alphaSize <= |len[t]|
    {
    }

    /** One table, from its row of lengths. */
    method PrepareOne(t: nat, alphaSize: nat)
      requires Shape() && t < 6 && 0 < alphaSize <= MAX_ALPHA_SIZE
      modifies this`limit, this`base, this`perm, this`minLens
      ensures Shape() && t < |len| && alphaSize <= |len[t]| && |limit| == |base| == |perm| == |minLens| == 6
      ensures TableTied(t, len[t][..alphaSize])
      ensures |old(limit)| == |old(base)| == |old(perm)| == |old(minLens)| == 6
      ensures forall g :: 0 <= g < 6 && g != t ==>
        && limit[g] == old(limit)[g] && base[g] == old(base)[g] && perm[g] == old(perm)[g] && minLens[g] == old(minLens)[g]
    {
      hide LimitFor, BaseFor, PermFor, Shape;
      RowOf(t, alphaSize);
      var row := len[t][..alphaSize];
      var lim, bas, per := new int[MAX_ALPHA_SIZE], new int[MAX_ALPHA_SIZE], new nat[MAX_ALPHA_SIZE];
      var minLen := DecoderLoops.PrepareTable(row, lim, bas, per);
      SetTable(t, lim[..], bas[..], per[..], minLen);
    }

    method PrepareTables(v: Locals, ghost sel: seq<nat>, ghost rows: seq<seq<Len>>)
      requires Shape() && RowsTied(sel, rows, v.nSelectors, v.alphaSize) && v.nGroups == |rows| <= 6
      requires 0 < v.alphaSize <= MAX_ALPHA_SIZE
      modifies this`limit, this`base, this`perm, this`minLens
      ensures Shape() && TablesTied(rows)
    {
      hide LimitFor, BaseFor, PermFor;
      for t := 0 to v.nGroups
        invariant Shape() && forall g :: 0 <= g < t ==> TableTied(g, rows[g])
      {
        ghost var before := (limit, base, perm, minLens);
        assert len[t][..v.alphaSize] == rows[t];
        PrepareOne(t, v.alphaSize);
      }
    }

    // ---------- GET_MTF_VAL ----------

    lemma GroupFacts(h: Head, t: Tables, w: Work, goal: Goal, v: Locals)
      requires WorkTied(h, t, w, v) && Working(h, t, w, goal)
      ensures v.groupNo == w.groupNo >= -1 && v.groupPos == w.groupPos && selector == t.selector && v.nSelectors == |selector|
      ensures |t.len| <= |minLens| && forall g :: 0 <= g < |t.len| ==> minLens[g] == MinLen(t.len[g])
      ensures forall i :: 0 <= i < |selector| ==> selector[i] < |t.len|
      ensures w.groupPos > 0 ==> 0 <= w.groupNo < |selector| && v.gSel == selector[w.groupNo] && v.gMinlen == MinLen(t.len[v.gSel])
    {
      hide Used, HeadTied, MapTied, LimitFor, BaseFor, PermFor, ListTied, Stored, FrontBelow;
    }

    /** Locals that do not touch what stays or what has been stored. */
    lemma Regrouped(h: Head, t: Tables, w: Work, v: Locals, w': Work, v': Locals)
      requires WorkTied(h, t, w, v) && Kept(v') == Kept(v) && v'.nblock == v.nblock
      requires w'.list == w.list && w'.bytes == w.bytes && w'.unzftab == w.unzftab
      requires GroupTied(t, w'.groupNo, w'.groupPos, v')
      ensures WorkTied(h, t, w', v')
    {
      hide Setting, Kept, GroupTied, ListTied, Stored;
    }

    /** Perhaps a new group, then the shortest code of its table. */
    method EnterGroup(v: Locals, ghost h: Head, ghost t: Tables, ghost w: Work, ghost goal: Goal)
      returns (v': Locals, more: bool)
      requires WorkTied(h, t, w, v) && Working(h, t, w, goal)
      ensures var b := BeginSymbol(h, t, w, goal);
        if more then b.MtfFirst? && b == MtfFirst(h, t, b.w, goal, b.zn) && b.zn == v'.zn == v'.gMinlen && WorkTied(h, t, b.w, v')
        else b == Stop(DataError)
      ensures v'.es == v.es && v'.n == v.n
    {
      hide WorkTied, Working;
      GroupFacts(h, t, w, goal, v);
      v', more := v, true;
      if v.groupPos == 0 {
        v' := v'.(groupNo := v.groupNo + 1);
        if v'.groupNo >= v.nSelectors { return v', false; }
        v' := v'.(groupPos := 50, gSel := selector[v'.groupNo]);
        v' := v'.(gMinlen := minLens[v'.gSel]);
      }
      v' := v'.(groupPos := v'.groupPos - 1, zn := v'.gMinlen);
      Regrouped(h, t, w, v, BeginSymbol(h, t, w, goal).w, v');
    }

    /** GET_MTF_VAL as far as its first GET_BITS. */
    method BeginGet(v: Locals, at: Label, ghost h: Head, ghost t: Tables, ghost w: Work, ghost goal: Goal)
      returns (v': Locals)
      requires WorkTied(h, t, w, v) && GoalTied(goal, v, at != XMtf3) && at in {XMtf1, XMtf3, XMtf5}
      requires Working(h, t, w, goal)
      modifies this`state, this`s
      ensures s == BeginSymbol(h, t, w, goal) && (StartTied() || SymbolsTied(v'))
    {
      hide WorkTied, Working, BeginSymbol;
      var more;
      v', more := EnterGroup(v, h, t, w, goal);
      s := BeginSymbol(h, t, w, goal);
      state := if more then at else XIdle(DataError);
    }

    // ---------- The bytes of the block ----------

    lemma WorkFacts(h: Head, t: Tables, w: Work, goal: Goal, v: Locals)
      requires Shape() && WorkTied(h, t, w, v) && Working(h, t, w, goal)
      ensures Bytes().Length == v.nblockMAX == 100000 * h.level && v.nblock == |w.bytes|
      ensures |t.inUse| == 256 && nInUse == |Used(t.inUse, 256)| && 1 <= nInUse <= 256 && v.eob == nInUse + 1
      ensures MapTied(t.inUse, v.alphaSize) && FrontBelow(w.list, nInUse)
      ensures Setting(h, t, Kept(v)) && GroupTied(t, w.groupNo, w.groupPos, v)
      ensures ListTied(w.list) && Stored(w.bytes, v.nblock) && unzftab == w.unzftab && |unzftab| == 256
    {
      hide Used, LimitFor, BaseFor, PermFor, ListTied, FrontBelow, GroupTied, TablesTied, RowsTied;
    }

    /** A value of the list names a byte in use. */
    lemma ByteInUse(t: Tables, alphaSize: nat, x: nat)
      requires MapTied(t.inUse, alphaSize) && x < nInUse
      ensures x < |seqToUnseq| && seqToUnseq[x] == Unseq(t, x)
    {
      hide Used;
      assert seqToUnseq[x] == seqToUnseq[..nInUse][x];
    }

    method CountBytes(uc: Byte, n: nat)
      requires Shape()
      modifies this`unzftab
      ensures Shape() && unzftab == Bump(old(unzftab), uc, n)
    {
      unzftab := unzftab[uc := unzftab[uc] + n];
    }

    method StoreByte(nblock: nat, uc: Byte, ghost bytes: Block)
      requires Stored(bytes, nblock) && nblock < Bytes().Length
      modifies Bytes()
      ensures Stored(bytes + [uc], nblock + 1)
    {
      Bytes()[nblock] := uc;
    }

    /** The loop that writes out a run; full when the block has no room for it. */
    method FillRun(nblock0: nat, nblockMAX: nat, uc: Byte, es0: nat, ghost bytes: Block) returns (nblock: nat, full: bool)
      requires Stored(bytes, nblock0) && nblock0 <= nblockMAX == Bytes().Length
      modifies Bytes()
      ensures full <==> nblock0 + es0 > nblockMAX
      ensures !full ==> nblock == nblock0 + es0 && Stored(bytes + Repeat(uc, es0), nblock)
    {
      hide Stored;
      var es := es0;
      nblock := nblock0;
      assert bytes + Repeat(uc, es0 - es) == bytes;
      while es > 0
        invariant 0 <= es <= es0 && nblock == nblock0 + (es0 - es) <= nblockMAX
        invariant Stored(bytes + Repeat(uc, es0 - es), nblock)
      {
        if nblock >= nblockMAX { return nblock, true; }
        StoreByte(nblock, uc, bytes + Repeat(uc, es0 - es));
        assert bytes + Repeat(uc, es0 - es) + [uc] == bytes + Repeat(uc, es0 - es + 1);
        nblock := nblock + 1;
        es := es - 1;
      }
      full := false;
    }

    // ---------- One symbol ----------

    /** The first entry of the list. */
    method FrontEntry(ghost list: seq<nat>) returns (x: nat)
      requires ListTied(list)
      ensures |list| == 256 && x == list[0]
    {
      hide Listed;
      x := mtf.mtfa[mtf.mtfbase[0]];
      ListedAt(mtf.mtfa[..], mtf.mtfbase[..], 0, 0);
    }

    /** uc = MTF(nextSym - 1). */
    method MoveEntry(nn: nat, ghost list: seq<nat>) returns (uc: nat)
      requires ListTied(list) && nn < 256
      modifies mtf.mtfa, mtf.mtfbase
      ensures |list| == 256 && uc == list[nn] && ListTied(MoveFront(list, nn))
    {
      hide Listed, MoveFront;
      uc := mtf.Move(nn);
    }

    lemma Together(h: Head, t: Tables, w: Work, v: Locals)
      requires Setting(h, t, Kept(v)) && GroupTied(t, w.groupNo, w.groupPos, v)
      requires ListTied(w.list) && Stored(w.bytes, v.nblock) && unzftab == w.unzftab
      ensures WorkTied(h, t, w, v)
    {
      hide Setting, GroupTied, ListTied, Stored;
    }

    /** Move an entry to the front, and count and store the byte it stands for. */
    method TakeEntry(v: Locals, ghost h: Head, ghost t: Tables, ghost w: Work) returns (v': Locals)
      requires Shape() && WorkTied(h, t, w, v) && Working(h, t, w, AnySymbol)
      requires 2 <= v.nextSym <= nInUse && v.nblock < v.nblockMAX
      modifies this`unzftab, mtf.mtfa, mtf.mtfbase, Bytes()
      ensures Shape() && v.nextSym - 1 < |w.list| && WorkTied(h, t, AfterByte(t, w, v.nextSym - 1), v')
    {
      hide Shape, WorkTied, Working, Setting, ListTied, Stored, MapTied;
      WorkFacts(h, t, w, AnySymbol, v);
      var x := MoveEntry(v.nextSym - 1, w.list);
      ByteInUse(t, v.alphaSize, x);
      var uc := seqToUnseq[x];
      CountBytes(uc, 1);
      StoreByte(v.nblock, uc, w.bytes);
      v' := v.(nblock := v.nblock + 1);
      Together(h, t, AfterByte(t, w, v.nextSym - 1), v');
    }

    method ByteArm(v: Locals, ghost h: Head, ghost t: Tables, ghost w: Work) returns (v': Locals)
      requires Shape() && WorkTied(h, t, w, v) && Working(h, t, w, AnySymbol) && 2 <= v.nextSym <= nInUse
      modifies this`state, this`s, this`unzftab, mtf.mtfa, mtf.mtfbase, Bytes()
      ensures Shape() && s == TakeByte(h, t, w, v.nextSym - 1) && (StartTied() || SymbolsTied(v'))
    {
      hide Shape, WorkTied, Working, BeginSymbol, Setting, ListTied, Stored, GroupTied, MapTied, SymbolsTied, StartTied;
      WorkFacts(h, t, w, AnySymbol, v);
      v' := v;
      if v.nblock >= v.nblockMAX {
        Fail(DataError);
      } else {
        v' := TakeEntry(v, h, t, w);
        ByteKeepsWorking(h, t, w, v.nextSym - 1);
        v' := BeginGet(v', XMtf5, h, t, AfterByte(t, w, v.nextSym - 1), AnySymbol);
      }
    }

    // ---------- Runs ----------

    method DigitArm(v: Locals, ghost h: Head, ghost t: Tables, ghost w: Work) returns (v': Locals)
      requires WorkTied(h, t, w, v) && Working(h, t, w, AnySymbol)
      requires v.nextSym <= RUNB && 1 <= v.n <= 0x400000 && -1 <= v.es <= 2 * v.n - 3
      modifies this`state, this`s
      ensures s == TakeDigit(h, t, w, v.es, v.n, v.nextSym) && (StartTied() || SymbolsTied(v'))
    {
      hide WorkTied, Setting, GroupTied, ListTied, Stored, SymbolsTied, StartTied, BeginSymbol, LengthRows, FrontBelow;
      v' := v;
      if v.n >= 2 * 1024 * 1024 {
        Fail(DataError);
      } else {
        v' := v'.(es := if v.nextSym == RUNA then v.es + (0 + 1) * v.n else v.es + (1 + 1) * v.n);
        v' := v'.(n := v.n * 2);
        SameWork(h, t, w, v, v');
        v' := BeginGet(v', XMtf3, h, t, w, RunDigit(v.es + (v.nextSym + 1) * v.n, v.n * 2));
      }
    }

    /** The locals of a run are not those of the work. */
    lemma SameWork(h: Head, t: Tables, w: Work, v: Locals, v': Locals)
      requires WorkTied(h, t, w, v) && v' == v.(es := v'.es, n := v'.n, nextSym := v'.nextSym)
      ensures WorkTied(h, t, w, v')
    {
      hide Setting, ListTied, Stored;
    }

    // ---------- The end of a block ----------

    lemma CftabStep(k: nat)
      requires k < |unzftab|
      ensures Cftab(unzftab, k + 1) == Cftab(unzftab, k) + unzftab[k] && Cftab(unzftab, 0) == 0
    {
    }

    /** cftab, by summing up the counts. */
    method SumUp()
      requires cftab.Length == 257 && |unzftab| == 256
      modifies cftab
      ensures SummedUp()
    {
      hide Cftab;
      cftab[0] := 0;
      for i := 1 to 257
        invariant cftab[0] == 0 && forall k :: 1 <= k < i ==> cftab[k] == unzftab[k - 1]
      {
        cftab[i] := unzftab[i - 1];
      }
      CftabStep(0);
      for i := 1 to 257
        invariant forall k :: 0 <= k < i ==> cftab[k] == Cftab(unzftab, k)
        invariant forall k :: i <= k < 257 ==> cftab[k] == unzftab[k - 1]
      {
        CftabStep(i - 1);
        cftab[i] := cftab[i] + cftab[i - 1];
      }
    }

    /** The checks on unzftab and cftab; the last loop never fails. */
    method CheckCounts(nblock: nat) returns (ok: bool)
      requires cftab.Length == 257 && |unzftab| == 256
      modifies cftab
      ensures ok == InRange(unzftab, nblock) && (ok ==> SummedUp())
    {
      hide Cftab;
      for i := 0 to 256
        invariant forall k :: 0 <= k < i ==> unzftab[k] <= nblock
      {
        if unzftab[i] > nblock { return false; }
      }
      SumUp();
      for i := 0 to 257
        invariant SummedUp() && forall k :: 0 <= k < i ==> cftab[k] <= nblock
      {
        if cftab[i] > nblock {
          assert Cftab(unzftab, i) > nblock;
          return false;
        }
      }
      assert InRange(unzftab, nblock);
      for i := 1 to 257
        invariant SummedUp()
      {
        CftabStep(i - 1);
        if cftab[i - 1] > cftab[i] { return false; }
      }
      ok := true;
    }

    lemma EndFacts(h: Head, bytes: Block, nblock: nat)
      requires Shape() && HeadTied(h) && Stored(bytes, nblock)
      ensures origPtr == h.origPtr && nblock == |bytes|
      ensures cftab.Length == 257 && |unzftab| == 256 && cftab !in {tt, ll16}
    {
      hide Buffer;
    }

    lemma OutputTied(v: Locals, h: Head, bytes: Block)
      requires s == Output(h, bytes, unzftab) && state == XOutput && HeadTied(h) && Stored(bytes, v.nblock) && SummedUp()
      ensures SymbolsTied(v)
    {
      hide HeadTied, Stored, SummedUp;
    }

    method EndBlock(v: Locals, ghost h: Head, ghost w: Work)
      requires Shape() && HeadTied(h) && Stored(w.bytes, v.nblock) && unzftab == w.unzftab
      modifies this`state, this`s, cftab
      ensures Shape() && s == Finish(h, w) && (StartTied() || SymbolsTied(v))
    {
      hide InRange, SummedUp, HeadTied, Shape, Stored, SymbolsTied, StartTied;
      EndFacts(h, w.bytes, v.nblock);
      if origPtr >= v.nblock {
        Fail(DataError);
        return;
      }
      var ok := CheckCounts(v.nblock);
      if !ok {
        Fail(DataError);
      } else {
        state := XOutput;
        s := Output(h, w.bytes, w.unzftab);
        OutputTied(v, h, w.bytes);
      }
    }

    // ---------- The loop over the symbols ----------

    /** The top of the loop, with nextSym read. */
    method TopOfLoop(v: Locals, ghost h: Head, ghost t: Tables, ghost w: Work) returns (v': Locals)
      requires Shape() && WorkTied(h, t, w, v) && Working(h, t, w, AnySymbol) && v.nextSym <= nInUse + 1
      modifies this`state, this`s, this`unzftab, mtf.mtfa, mtf.mtfbase, cftab, Bytes()
      ensures Shape() && s == NextSymbol(h, t, w, v.nextSym) && (StartTied() || SymbolsTied(v'))
    {
      hide Shape, WorkTied, Working, SymbolsTied, StartTied, Finish, TakeDigit, TakeByte, HeadTied, MapTied, Setting,
        GroupTied, Stored, ListTied, FrontBelow;
      WorkFacts(h, t, w, AnySymbol, v);
      v' := v;
      if v.nextSym == v.eob {
        SettingHead(h, t, Kept(v));
        EndBlock(v', h, w);
      } else if v.nextSym == RUNA || v.nextSym == RUNB {
        v' := v'.(es := -1, n := 1);
        SameWork(h, t, w, v, v');
        v' := DigitArm(v', h, t, w);
      } else {
        v' := ByteArm(v', h, t, w);
      }
    }

    lemma SettingHead(h: Head, t: Tables, kept: Locals)
      requires Setting(h, t, kept)
      ensures HeadTied(h)
    {
    }

    /** Count and write out a run of es + 1 copies of the front entry's byte. */
    method EndOfRun(v: Locals, ghost h: Head, ghost t: Tables, ghost w: Work) returns (v': Locals, full: bool)
      requires Shape() && WorkTied(h, t, w, v) && Working(h, t, w, AnySymbol) && v.es >= -1
      modifies this`unzftab, Bytes()
      ensures Shape() && v'.nextSym == v.nextSym && (full <==> |w.bytes| + v.es + 1 > 100000 * h.level)
      ensures !full ==> WorkTied(h, t, AfterRun(t, w, v.es + 1), v')
    {
      hide Shape, WorkTied, Working, Setting, ListTied, Stored, MapTied;
      WorkFacts(h, t, w, AnySymbol, v);
      var es := v.es + 1;
      var x := FrontEntry(w.list);
      FrontInUse(w.list);
      ByteInUse(t, v.alphaSize, x);
      var uc := seqToUnseq[x];
      CountBytes(uc, es);
      var nblock;
      FitsSoFar(h, t, w);
      nblock, full := FillRun(v.nblock, v.nblockMAX, uc, es, w.bytes);
      v' := v.(nblock := nblock, es := 0);
      if !full {
        Together(h, t, AfterRun(t, w, es), v');
      }
    }

    lemma FrontInUse(list: seq<nat>)
      requires FrontBelow(list, nInUse) && 1 <= nInUse
      ensures |list| == 256 && list[0] < nInUse
    {
    }

    lemma FitsSoFar(h: Head, t: Tables, w: Work)
      requires Working(h, t, w, AnySymbol)
      ensures |w.bytes| <= 100000 * h.level
    {
    }

    method RunArm(v: Locals, ghost h: Head, ghost t: Tables, ghost w: Work) returns (v': Locals)
      requires Shape() && WorkTied(h, t, w, v) && Working(h, t, w, AnySymbol) && v.es >= -1 && v.nextSym <= nInUse + 1
      modifies this`state, this`s, this`unzftab, mtf.mtfa, mtf.mtfbase, cftab, Bytes()
      ensures Shape() && s == EndRun(h, t, w, v.es, v.nextSym) && (StartTied() || SymbolsTied(v'))
    {
      hide Shape, WorkTied, Working, SymbolsTied, StartTied, NextSymbol, Unseq, Repeat;
      var full;
      v', full := EndOfRun(v, h, t, w);
      if full {
        Fail(DataError);
      } else {
        RunKeepsWorking(h, t, w, v.es + 1);
        v' := TopOfLoop(v', h, t, AfterRun(t, w, v.es + 1));
      }
    }

    /** A symbol has arrived. */
    method GotArm(v: Locals, ghost h: Head, ghost t: Tables, ghost w: Work, ghost goal: Goal) returns (v': Locals)
      requires Shape() && WorkTied(h, t, w, v) && Working(h, t, w, goal) && GoalTied(goal, v, state !in {XMtf3, XMtf4})
      requires v.nextSym <= nInUse + 1
      modifies this`state, this`s, this`unzftab, mtf.mtfa, mtf.mtfbase, cftab, Bytes()
      ensures Shape() && s == GotSymbol(h, t, w, goal, v.nextSym) && (StartTied() || SymbolsTied(v'))
    {
      hide Shape, WorkTied, SymbolsTied, StartTied, NextSymbol, EndRun, TakeDigit, LengthRows, FrontBelow;
      if state != XMtf3 && state != XMtf4 {
        v' := TopOfLoop(v, h, t, w);
      } else if v.nextSym == RUNA || v.nextSym == RUNB {
        v' := DigitArm(v, h, t, w);
      } else {
        v' := RunArm(v, h, t, w);
      }
    }

    /** The table the current group selects, and the code read so far. */
    lemma CodeFacts(h: Head, t: Tables, w: Work, goal: Goal, v: Locals)
      requires Shape() && WorkTied(h, t, w, v) && Working(h, t, w, goal) && 0 <= w.groupNo
      ensures w.groupNo < |t.selector| && t.selector[w.groupNo] < |t.len| <= 6
      ensures v.gSel == t.selector[w.groupNo] && v.gMinlen == MinLen(t.len[v.gSel])
      ensures |limit| == |base| == |perm| == |minLens| == 6 && TableTied(v.gSel, t.len[v.gSel])
      ensures |t.inUse| == 256 && nInUse == |Used(t.inUse, 256)| && |t.len[v.gSel]| == nInUse + 2
      ensures |perm[v.gSel]| == MAX_ALPHA_SIZE
    {
      hide Used, HeadTied, MapTied, TableTied, ListTied, Stored, FrontBelow;
      WorkFacts(h, t, w, goal, v);
    }

    lemma TableAt(g: nat, row: seq<Len>, n: nat)
      requires g < |minLens| && g < |limit| && g < |base| && g < |perm|
      requires TableTied(g, row) && MinLen(row) <= n <= 20
      ensures n < |limit[g]| && n < |base[g]| && limit[g][n] == LimitFor(row, n) && base[g][n] == BaseFor(row, n)
      ensures |row| <= |perm[g]| && perm[g][..|row|] == PermFor(row)
    {
      hide MinLen, LimitFor, BaseFor, PermFor;
    }

    /** The symbol of a code within the limit. */
    method FindSymbol(v: Locals, ghost row: seq<Len>) returns (sym: nat, bad: bool)
      requires Shape() && v.gSel < 6 && TableTied(v.gSel, row) && row != [] && MinLen(row) <= v.zn <= 20
      requires v.zvec <= LimitFor(row, v.zn)
      ensures var k := v.zvec - BaseFor(row, v.zn);
        && (bad <==> k < 0 || k >= MAX_ALPHA_SIZE)
        && (!bad ==> k < |PermFor(row)| && sym == PermFor(row)[k] < |row|)
    {
      hide LimitFor, BaseFor, PermFor, TableTied, MinLen;
      TableAt(v.gSel, row, v.zn);
      EntryIsFilled(row, v.zn, v.zvec);
      var k := v.zvec - base[v.gSel][v.zn];
      if k < 0 || k >= MAX_ALPHA_SIZE { return 0, true; }
      assert perm[v.gSel][k] == perm[v.gSel][..|row|][k];
      EntryIsSymbol(row, k);
      sym, bad := perm[v.gSel][k], false;
    }

    /** GET_MTF_VAL with zn bits in zvec: one more bit, or a symbol. */
    method TryArm(v: Locals, ghost h: Head, ghost t: Tables, ghost w: Work, ghost goal: Goal) returns (v': Locals)
      requires Shape() && WorkTied(h, t, w, v) && Working(h, t, w, goal) && 0 <= w.groupNo
      requires state in {XMtf1, XMtf2, XMtf3, XMtf4, XMtf5, XMtf6} && GoalTied(goal, v, state !in {XMtf3, XMtf4})
      requires 1 <= v.zn && v.gMinlen <= v.zn
      modifies this`state, this`s, this`unzftab, mtf.mtfa, mtf.mtfbase, cftab, Bytes()
      ensures Shape() && s == TrySymbol(h, t, w, goal, v.zn, v.zvec) && (StartTied() || SymbolsTied(v'))
    {
      hide Shape, WorkTied, Working, SymbolsTied, StartTied, GotSymbol, LimitFor, BaseFor, PermFor, TableTied, MinLen;
      v' := v;
      CodeFacts(h, t, w, goal, v);
      if v.zn > 20 {
        Fail(DataError);
        return;
      }
      ghost var row := t.len[v.gSel];
      TableAt(v.gSel, row, v.zn);
      if v.zvec > limit[v.gSel][v.zn] {
        v' := AnotherBit(v, h, t, w, goal);
        return;
      }
      var sym, bad := FindSymbol(v, row);
      if bad {
        Fail(DataError);
      } else {
        v' := v.(nextSym := sym);
        SameWork(h, t, w, v, v');
        v' := GotArm(v', h, t, w, goal);
      }
    }

    method AnotherBit(v: Locals, ghost h: Head, ghost t: Tables, ghost w: Work, ghost goal: Goal) returns (v': Locals)
      requires WorkTied(h, t, w, v) && v.gMinlen <= v.zn
      requires state in {XMtf1, XMtf2, XMtf3, XMtf4, XMtf5, XMtf6} && GoalTied(goal, v, state !in {XMtf3, XMtf4})
      modifies this`state, this`s
      ensures s == MtfNext(h, t, w, goal, v.zn + 1, v.zvec) && SymbolsTied(v')
    {
      hide WorkTied;
      v' := v.(zn := v.zn + 1);
      CodeKept(h, t, w, v, v');
      state := if state in {XMtf1, XMtf2} then XMtf2 else if state in {XMtf3, XMtf4} then XMtf4 else XMtf6;
      s := MtfNext(h, t, w, goal, v.zn + 1, v.zvec);
    }

    /** The code being read is no part of the work. */
    lemma CodeKept(h: Head, t: Tables, w: Work, v: Locals, v': Locals)
      requires WorkTied(h, t, w, v) && v' == v.(zn := v'.zn, zvec := v'.zvec)
      ensures WorkTied(h, t, w, v')
    {
      hide Setting, ListTied, Stored;
    }

    method SymbolsArm(v: Locals, bits: nat) returns (v': Locals)
      requires Shape() && SymbolsTied(v) && Bounded(s) && Reads(s)
      modifies this`state, this`s, this`unzftab, mtf.mtfa, mtf.mtfbase, cftab, Bytes()
      ensures Shape() && s == Step(old(s), bits) && (StartTied() || SymbolsTied(v'))
    {
      hide Shape, WorkTied, Working, StartTied, TrySymbol;
      ghost var h, t, w, goal := s.h, s.t, s.w, s.goal;
      v' := v.(zvec := if state in {XMtf1, XMtf3, XMtf5} then bits else v.zvec * 2 + bits);
      CodeKept(h, t, w, v, v');
      v' := TryArm(v', h, t, w, goal);
    }

    // ---------- From the lengths to the symbols ----------

    lemma LengthFacts(v: Locals)
      requires Shape() && s.Coding2? && LengthsTied(v) && Bounded(s)
      ensures HeadTied(s.h) && MapTied(s.inUse, v.alphaSize) && v.nGroups == s.nGroups <= 6
      ensures RowsTied(s.selector, s.len, v.nSelectors, v.alphaSize) && v.t == |s.len| < s.nGroups
      ensures RowTied(s.row, v.t, v.i) && v.curr == s.curr && v.i == |s.row| < v.alphaSize <= MAX_ALPHA_SIZE
      ensures |s.inUse| == 256 && v.alphaSize == |Used(s.inUse, 256)| + 2 && state == XCoding2
    {
      hide Used, HeadTied, RowsTied;
    }

    /** The locals, counts and list the symbols start with. */
    method StartSymbols(v: Locals, ghost h: Head, ghost t: Tables) returns (v': Locals)
      requires Shape() && HeadTied(h) && MapTied(t.inUse, v.alphaSize) && v.nGroups == |t.len|
      requires RowsTied(t.selector, t.len, v.nSelectors, v.alphaSize) && TablesTied(t.len)
      modifies this`unzftab, mtf.mtfa, mtf.mtfbase
      ensures Shape() && WorkTied(h, t, StartWork(), v')
    {
      hide HeadTied, MapTied, RowsTied, TablesTied, ListTied, Used;
      v' := v.(eob := nInUse + 1, nblockMAX := 100000 * blockSize100k, groupNo := -1, groupPos := 0, nblock := 0);
      unzftab := seq(256, _ => 0);
      LevelIs(h);
      StartList();
      assert unzftab == StartWork().unzftab;
    }

    lemma LevelIs(h: Head)
      requires HeadTied(h)
      ensures blockSize100k == h.level
    {
      hide Buffer;
    }

    method StartList()
      requires Shape()
      modifies mtf.mtfa, mtf.mtfbase
      ensures ListTied(Iota(256))
    {
      mtf.Init();
    }

    lemma FirstWorking(s: State)
      requires s.Coding2? && Bounded(s) && |s.row| + 1 == |Used(s.inUse, 256)| + 2 && |s.len| + 1 == s.nGroups
      ensures Working(s.h, Tables(s.inUse, s.selector, s.len + [s.row + [s.curr]]), StartWork(), AnySymbol)
    {
      hide Used;
    }

    /** All lengths are there: the decoding tables, and the first symbol. */
    method LastLength(v: Locals, ghost h: Head, ghost t: Tables) returns (v': Locals)
      requires Shape() && HeadTied(h) && MapTied(t.inUse, v.alphaSize) && v.nGroups == |t.len| <= 6
      requires RowsTied(t.selector, t.len, v.nSelectors, v.alphaSize) && 0 < v.alphaSize <= MAX_ALPHA_SIZE
      requires Working(h, t, StartWork(), AnySymbol)
      modifies this`state, this`limit, this`base, this`perm, this`minLens, this`unzftab, mtf.mtfa, mtf.mtfbase, this`s
      ensures Shape() && s == BeginSymbol(h, t, StartWork(), AnySymbol) && (StartTied() || SymbolsTied(v'))
    {
      hide Shape, HeadTied, MapTied, RowsTied, TablesTied, WorkTied, Working, BeginSymbol, StartTied, SymbolsTied;
      PrepareTables(v, t.selector, t.len);
      v' := StartSymbols(v, h, t);
      v' := BeginGet(v', XMtf1, h, t, StartWork(), AnySymbol);
    }

    lemma TableTurn(v: Locals)
      requires s.Coding1? && state == XCoding1 && HeadTied(s.h) && MapTied(s.inUse, v.alphaSize) && v.nGroups == s.nGroups
      requires RowsTied(s.selector, s.len, v.nSelectors, v.alphaSize) && v.t == |s.len|
      ensures LengthsTied(v)
    {
      hide HeadTied, MapTied, RowsTied;
    }

    /** A table's lengths are complete: on to the next table, or the symbols. */
    method NextTable(v: Locals, ghost h: Head, ghost nGroups: nat, ghost t: Tables) returns (v': Locals)
      requires Shape() && HeadTied(h) && MapTied(t.inUse, v.alphaSize) && v.nGroups == nGroups <= 6
      requires RowsTied(t.selector, t.len, v.nSelectors, v.alphaSize) && 0 < v.alphaSize <= MAX_ALPHA_SIZE
      requires v.t + 1 == |t.len| <= nGroups && (|t.len| == nGroups ==> Working(h, t, StartWork(), AnySymbol))
      modifies this`state, this`limit, this`base, this`perm, this`minLens, this`unzftab, mtf.mtfa, mtf.mtfbase, this`s
      ensures Shape() && (StartTied() || LengthsTied(v') || SymbolsTied(v'))
      ensures s == (if |t.len| < nGroups then Coding1(h, t.inUse, nGroups, t.selector, t.len)
                    else BeginSymbol(h, t, StartWork(), AnySymbol))
    {
      hide Shape, HeadTied, MapTied, RowsTied, Working, BeginSymbol, StartTied, LengthsTied, SymbolsTied;
      v' := v.(t := v.t + 1);
      if v'.t < v.nGroups {
        state := XCoding1;
        s := Coding1(h, t.inUse, nGroups, t.selector, t.len);
        TableTurn(v');
      } else {
        v' := LastLength(v', h, t);
      }
    }

    /** A length is complete: on to the next. */
    method NextLength(v: Locals) returns (v': Locals)
      requires Shape() && s.Coding2? && LengthsTied(v) && Bounded(s)
      modifies this`state, this`len, this`limit, this`base, this`perm, this`minLens, this`unzftab,
        mtf.mtfa, mtf.mtfbase, this`s
      ensures Shape() && s == Step(old(s), 0) && (StartTied() || LengthsTied(v') || SymbolsTied(v'))
    {
      hide Shape, HeadTied, MapTied, RowsTied, RowTied, Bounded, BeginSymbol, StartTied, LengthsTied, SymbolsTied, Used,
        Working;
      LengthFacts(v);
      ghost var was, h, t, row := s, s.h, Tables(s.inUse, s.selector, s.len), s.row + [s.curr];
      KeepLength(v, t.selector, t.len, s.row);
      v' := v.(i := v.i + 1);
      if v'.i < v.alphaSize {
        CheckCurr(v', h, t.inUse, was.nGroups, t.selector, t.len, row);
      } else {
        if |was.len| + 1 == was.nGroups { FirstWorking(was); }
        v' := NextTable(v', h, was.nGroups, t.(len := t.len + [row]));
      }
    }

    method LengthArm(v: Locals, bit: nat) returns (v': Locals)
      requires Shape() && s.Coding2? && LengthsTied(v) && Bounded(s)
      modifies this`state, this`len, this`limit, this`base, this`perm, this`minLens, this`unzftab,
        mtf.mtfa, mtf.mtfbase, this`s
      ensures Shape() && s == Step(old(s), bit) && (StartTied() || LengthsTied(v') || SymbolsTied(v'))
    {
      hide Shape, HeadTied, MapTied, RowsTied, RowTied, Bounded, BeginSymbol, StartTied, SymbolsTied;
      v' := v;
      if bit != 0 {
        state := XCoding3;
        s := Coding3(s.h, s.inUse, s.nGroups, s.selector, s.len, s.row, s.curr);
      } else {
        v' := NextLength(v);
      }
    }

    // ---------- The switch ----------

    /** How many bits the GET_BITS at the label asks for. */
    function Wanted(v: Locals): nat
      reads this`state
    {
      match state
      case XRandBit => 1
      case XMapping1 => 1
      case XMapping2 => 1
      case XSelector1 => 3
      case XSelector2 => 15
      case XSelector3 => 1
      case XCoding1 => 5
      case XCoding2 => 1
      case XCoding3 => 1
      case XMtf1 => v.zn
      case XMtf2 => 1
      case XMtf3 => v.zn
      case XMtf4 => 1
      case XMtf5 => v.zn
      case XMtf6 => 1
      case _ => 8
    }

    /** The label says in which part of the header or block the reader is. */
    lemma Family(v: Locals)
      requires Tied(v)
      ensures state.XMagic? || state.XEndHdr? || state.XCcrc? || state.XIdle? ==> StartTied()
      ensures state.XBlkHdr? || state.XBcrc? || state.XRandBit? || state.XOrigPtr? ==> HeadingTied()
      ensures state.XMapping1? || state.XMapping2? ==> MappingTied(v)
      ensures state.XSelector1? || state.XSelector2? || state.XSelector3? ==> SelectingTied(v)
      ensures state.XCoding1? || state.XCoding2? || state.XCoding3? ==> LengthsTied(v)
      ensures state in {XMtf1, XMtf2, XMtf3, XMtf4, XMtf5, XMtf6, XOutput} ==> SymbolsTied(v)
    {
      hide HeadTied, Buffer, RowsRead, BytesRead, MapTied, RowsTied, RowTied, WorkTied, Stored, SummedUp;
    }

    lemma WantedIsNeed(v: Locals)
      requires Tied(v)
      ensures (s.Output? <==> state.XOutput?) && (s.Stop? <==> state.XIdle?) && (s.Stop? ==> state == XIdle(s.code))
      ensures Reads(s) ==> Wanted(v) == Need(s)
    {
      hide HeadTied, Buffer, RowsRead, BytesRead, MapTied, RowsTied, RowTied, WorkTied, Stored, SummedUp;
    }

    method HeaderArm(bits: nat)
      requires StartTied() && Bounded(s) && Reads(s) && s != Level
      modifies this`state, this`storedCombinedCRC, this`s
      ensures s == Step(old(s), bits) && StartTied()
    {
      hide AfterMagic, AfterEndHdr, Pow2, LengthRows, Working, ByteMap;
      match state {
        case XMagic(k) => MagicArm(bits, s.k);
        case XEndHdr(k) => EndMagicArm(bits, s.k);
        case XCcrc(k) => CombinedCrcArm(bits, s.k, s.crc);
      }
    }

    method StartArm(v: Locals, bits: nat)
      requires Shape() && StartTied() && Bounded(s) && Reads(s)
      modifies this`state, this`blockSize100k, this`storedCombinedCRC, this`tt, this`ll16, this`ll4, this`s
      ensures Shape() && s == Step(old(s), bits) && (StartTied() || HeadingTied()) && fresh(Arrays() - old(Arrays()))
    {
      hide Shape, HeadingTied, Arrays, AfterMagic, AfterEndHdr;
      if state == XMagic(4) {
        LevelArm(bits);
      } else {
        HeaderArm(bits);
      }
    }

    method HeadingArm(v: Locals, bits: nat) returns (v': Locals)
      requires HeadingTied() && Bounded(s)
      modifies this`state, this`storedBlockCRC, this`blockRandomised, this`origPtr, this`s
      ensures s == Step(old(s), bits) && (StartTied() || HeadingTied() || MappingTied(v'))
    {
      hide Buffer, HeadTied;
      v' := v;
      match state {
        case XBlkHdr(k) => BlockMagicArm(bits, s.level, s.k);
        case XBcrc(k) => CrcArm(bits, s.level, s.k, s.crc);
        case XRandBit => RandomisedArm(bits, s.level, s.crc);
        case XOrigPtr(k) => v' := OrigPtrArm(v, bits, s.h, s.k);
      }
    }

    method MapArm(v: Locals, bits: nat) returns (v': Locals)
      requires Shape() && MappingTied(v) && Bounded(s)
      modifies this`state, this`inUse16, this`inUse, this`nInUse, this`seqToUnseq, this`s
      ensures Shape() && s == Step(old(s), bits) && (MappingTied(v') || SelectingTied(v') || StartTied())
    {
      hide Shape, HeadTied, RowsRead, BytesRead, SelectingTied, StartTied;
      if state == XMapping1 {
        v' := MapArm1(v, bits, s.h, s.inUse16);
      } else {
        v' := MapArm2(v, bits, s.h, s.inUse16, s.inUse, s.j);
      }
    }

    method SelectorArm(v: Locals, bits: nat) returns (v': Locals)
      requires SelectingTied(v) && Bounded(s)
      modifies this`state, this`selectorMtf, this`selector, this`s
      ensures s == Step(old(s), bits) && (StartTied() || SelectingTied(v') || LengthsTied(v'))
    {
      hide HeadTied, MapTied, StartTied, LengthsTied;
      match state {
        case XSelector1 => v' := GroupsArm(v, bits, s.h, s.inUse);
        case XSelector2 => v' := CountArm(v, bits, s.h, s.inUse, s.nGroups);
        case XSelector3 => v' := RankArm(v, bits, s.h, s.inUse, s.nGroups, s.nSelectors, s.ranks, s.j);
      }
    }

    method CodingArm(v: Locals, bits: nat) returns (v': Locals)
      requires Shape() && LengthsTied(v) && Bounded(s)
      modifies this`state, this`len, this`limit, this`base, this`perm, this`minLens, this`unzftab,
        mtf.mtfa, mtf.mtfbase, this`s
      ensures Shape() && s == Step(old(s), bits) && (StartTied() || LengthsTied(v') || SymbolsTied(v'))
    {
      hide Shape, HeadTied, MapTied, RowsTied, RowTied, StartTied, SymbolsTied;
      match state {
        case XCoding1 => v' := FirstLengthArm(v, bits, s.h, s.inUse, s.nGroups, s.selector, s.len);
        case XCoding2 => v' := LengthArm(v, bits);
        case XCoding3 => v' := StepArm(v, bits, s.h, s.inUse, s.nGroups, s.selector, s.len, s.row, s.curr);
      }
    }

    /** From one GET_BITS to the next: what the machine does in a step is what
        the arm does to the locals and fields. */
    method Arm(v: Locals, bits: nat) returns (v': Locals)
      requires Shape() && Tied(v) && Bounded(s) && Reads(s)
      modifies this, mtf.mtfa, mtf.mtfbase, cftab, tt, ll16
      ensures Shape() && s == Step(old(s), bits) && Tied(v') && fresh(Arrays() - old(Arrays())) && save == old(save)
    {
      hide Shape, StartTied, HeadingTied, MappingTied, SelectingTied, LengthsTied, SymbolsTied, Bounded, Step;
      Family(v);
      WantedIsNeed(v);
      v' := v;
      if state.XMagic? || state.XEndHdr? || state.XCcrc? {
        StartArm(v, bits);
      } else if state.XBlkHdr? || state.XBcrc? || state.XRandBit? || state.XOrigPtr? {
        v' := HeadingArm(v, bits);
      } else if state.XMapping1? || state.XMapping2? {
        v' := MapArm(v, bits);
      } else if state.XSelector1? || state.XSelector2? || state.XSelector3? {
        v' := SelectorArm(v, bits);
      } else if state.XCoding1? || state.XCoding2? || state.XCoding3? {
        v' := CodingArm(v, bits);
      } else {
        v' := SymbolsArm(v, bits);
      }
    }

    // ---------- Between reading and output ----------

    /** A block has been read; its bytes are the output stage's now. */
    ghost predicate Delivering()
      reads this`s, this`state, this`blockSize100k, this`storedBlockCRC, this`blockRandomised, this`origPtr,
        this`tt, this`ll16, this`ll4
    {
      s.Output? && state == XOutput && HeadTied(s.h)
    }

    lemma BlockRead(v: Locals)
      requires Tied(v) && s.Output?
      ensures Delivering() && Stored(s.bytes, v.nblock) && unzftab == s.unzftab && SummedUp()
    {
      hide HeadTied, Buffer, RowsRead, BytesRead, MapTied, RowsTied, RowTied, WorkTied, Stored, SummedUp;
    }

    /** The block is out: on to the next one. */
    method NextBlock()
      requires Delivering()
      modifies this`state, this`s
      ensures s == BlkHdr(old(s).h.level, 1) && Tied(save)
    {
      hide Buffer;
      state := XBlkHdr(1);
      s := BlkHdr(s.h.level, 1);
    }

    /** save_state_and_return. */
    method Save(v: Locals)
      requires Tied(v)
      modifies this`save
      ensures save == v && Tied(save)
    {
      hide StartTied, HeadingTied, MappingTied, SelectingTied, LengthsTied, SymbolsTied;
      save := v;
    }
  }

  /** Readers that stand for the same state ask for the same bits next, under
      the same label: two of the three GET_MTF_VALs lead to the same code. */
  lemma SameLabel(a: Reader, b: Reader)
    requires a.Tied(a.save) && b.Tied(b.save) && a.s == b.s && Reads(a.s)
    ensures a.Wanted(a.save) == b.Wanted(b.save)
    ensures a.state == b.state || (a.s.MtfFirst? && {a.state, b.state} <= {XMtf1, XMtf5})
         || (a.s.MtfNext? && {a.state, b.state} <= {XMtf2, XMtf6})
  {
    hide Reader.HeadTied, Reader.MapTied, Reader.RowTied, Reader.RowsTied, Reader.Setting, Reader.ListTied, Reader.Buffer,
      Reader.RowsRead, Reader.BytesRead, Reader.SummedUp, Reader.Stored, Reader.WorkTied;
    a.WantedIsNeed(a.save);
    b.WantedIsNeed(b.save);
  }

  /** Between symbols they hold the same of everything that is live. */
  lemma SameSymbols(a: Reader, b: Reader)
    requires a.Tied(a.save) && b.Tied(b.save) && a.s == b.s && (a.s.MtfFirst? || a.s.MtfNext?)
    ensures a.save.zn == b.save.zn && a.save.groupNo == b.save.groupNo && a.save.groupPos == b.save.groupPos
    ensures a.save.nblock == b.save.nblock && a.unzftab == b.unzftab && a.selector == b.selector
    ensures a.state in {XMtf3, XMtf4} ==> a.save.es == b.save.es && a.save.n == b.save.n
    ensures a.s.MtfNext? ==> a.save.zvec == b.save.zvec
    ensures a.save.nblock <= a.Bytes().Length && a.save.nblock <= b.Bytes().Length
    ensures forall k :: 0 <= k < a.save.nblock ==> a.Bytes()[k] == b.Bytes()[k]
  {
    hide Reader.HeadTied, Reader.MapTied, Reader.RowTied, Reader.TablesTied, Reader.ListTied, Reader.Buffer,
      Reader.RowsRead, Reader.BytesRead, Reader.SummedUp;
  }
}
