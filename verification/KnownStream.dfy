/** One stream in full: the 39 bytes of "banana" at level 9, field by field. */
module KnownStream {
  import opened Arith
  import opened Bits
  import opened Rotations
  import opened CountingSort
  import opened MoveToFront
  import opened GenerateMtf
  import opened CanonicalCode
  import opened BlockCrc
  import BlockCrcLaws
  import opened BlockImage
  import opened StreamFormat
  import CodeLengths
  import RunLength
  import StreamRoundTrip

  function Banana(): Block { [98, 97, 110, 97, 110, 97] }

  function Order(): seq<nat> { [5, 3, 1, 0, 4, 2] }

  function InUse(): (r: seq<bool>)
    ensures |r| == 256 && forall v :: 0 <= v < 256 ==> r[v] == (v == 97 || v == 98 || v == 110)
  {
    seq(256, v => v == 97 || v == 98 || v == 110)
  }

  function Lens0(): seq<nat> { [3, 3, 2, 2, 2] }

  function Lens1(): seq<nat> { [3, 3, 3, 1, 3] }

  function Known(): Sorted {
    Sorted(Banana(), Order(), 3, InUse(), Coding([1], [Lens0(), Lens1()]), Banana())
  }

  // ---------- Its rotations ----------

  lemma RowKey(i: nat, c0: Byte, c1: Byte, c2: Byte, c3: Byte, c4: Byte, c5: Byte)
    requires i < 6
    requires c0 == Char(Banana(), i, 0) && c1 == Char(Banana(), i, 1) && c2 == Char(Banana(), i, 2)
    requires c3 == Char(Banana(), i, 3) && c4 == Char(Banana(), i, 4) && c5 == Char(Banana(), i, 5)
    ensures Key(Banana(), i, 6) == 256 * (256 * (256 * (256 * (256 * c0 + c1) + c2) + c3) + c4) + c5
  {
    hide Char;
    assert Key(Banana(), i, 1) == c0;
    assert Key(Banana(), i, 2) == 256 * c0 + c1;
    assert Key(Banana(), i, 3) == 256 * (256 * c0 + c1) + c2;
    assert Key(Banana(), i, 4) == 256 * (256 * (256 * c0 + c1) + c2) + c3;
    assert Key(Banana(), i, 5) == 256 * (256 * (256 * (256 * c0 + c1) + c2) + c3) + c4;
  }

  lemma RowsSorted()
    ensures SortsRotations(Banana(), Order())
  {
    hide Key;
    RowKey(5, 97, 98, 97, 110, 97, 110);
    RowKey(3, 97, 110, 97, 98, 97, 110);
    RowKey(1, 97, 110, 97, 110, 97, 98);
    RowKey(0, 98, 97, 110, 97, 110, 97);
    RowKey(4, 110, 97, 98, 97, 110, 97);
    RowKey(2, 110, 97, 110, 97, 98, 97);
  }

  lemma LastColumnIs()
    ensures LastColumn(Banana(), Order()) == [110, 110, 98, 97, 97, 97]
  {
  }

  // ---------- Its symbols ----------

  lemma {:induction false} NoneUsed(lo: nat, hi: nat)
    requires lo <= hi <= 256 && forall v :: lo <= v < hi ==> !InUse()[v]
    ensures Used(InUse(), hi) == Used(InUse(), lo)
    decreases hi
  {
    if lo < hi {
      NoneUsed(lo, hi - 1);
    }
  }

  lemma UsedBytes()
    ensures Used(InUse(), 97) == [] && Used(InUse(), 98) == [97] && Used(InUse(), 110) == [97, 98]
    ensures Used(InUse(), 256) == [97, 98, 110]
  {
    NoneUsed(0, 97);
    NoneUsed(99, 110);
    NoneUsed(111, 256);
  }

  lemma KnownColumn()
    ensures Column(InUse(), [110, 110, 98, 97, 97, 97]) == [2, 2, 1, 0, 0, 0]
  {
    UsedBytes();
  }

  lemma Fits()
    ensures Marks(InUse(), Banana()) && Covers(InUse(), [110, 110, 98, 97, 97, 97])
    ensures AllIn([2, 2, 1, 0, 0, 0], Iota(3))
  {
    assert Iota(3) == [0, 1, 2];
    assert Banana()[0] == 98 && Banana()[1] == 97 && Banana()[2] == 110;
  }

  lemma KnownSymbols()
    ensures Covers(InUse(), [110, 110, 98, 97, 97, 97])
    ensures Symbols(InUse(), [110, 110, 98, 97, 97, 97]) == [3, 0, 3, 3, 1, 4]
  {
    hide Used, Column;
    Fits();
    UsedBytes();
    KnownColumn();
    assert Iota(3) == [0, 1, 2];
    EncodeBanana();
  }

  lemma Again(list: seq<nat>, column: seq<nat>, z: nat)
    requires list != [] && Distinct(list) && AllIn(column, list) && column != [] && column[0] == list[0]
    ensures AllIn(column[1..], list)
    ensures Encode(list, column, z) == Encode(list, column[1..], z + 1)
  {
  }

  lemma Moved(list: seq<nat>, column: seq<nat>, z: nat, k: nat)
    requires 0 < k < |list| && Distinct(list) && AllIn(column, list) && column != [] && column[0] == list[k]
    ensures Distinct(MoveFront(list, k)) && AllIn(column[1..], MoveFront(list, k))
    ensures Encode(list, column, z) == RunCode(z) + [k + 1] + Encode(MoveFront(list, k), column[1..], 0)
  {
    hide MoveFront, RunCode;
    MoveFrontFacts(list, k);
    assert IndexOf(list, column[0]) == k;
  }

  lemma EncodeBanana()
    ensures Distinct([0, 1, 2]) && AllIn([2, 2, 1, 0, 0, 0], [0, 1, 2])
    ensures Encode([0, 1, 2], [2, 2, 1, 0, 0, 0], 0) == [3, 0, 3, 3, 1]
  {
    hide Encode, MoveFront, RunCode, Distinct;
    Lists();
    Moved([0, 1, 2], [2, 2, 1, 0, 0, 0], 0, 2);
    assert [2, 2, 1, 0, 0, 0][1..] == [2, 1, 0, 0, 0];
    Again([2, 0, 1], [2, 1, 0, 0, 0], 0);
    assert [2, 1, 0, 0, 0][1..] == [1, 0, 0, 0];
    Moved([2, 0, 1], [1, 0, 0, 0], 1, 2);
    assert [1, 0, 0, 0][1..] == [0, 0, 0];
    Moved([1, 2, 0], [0, 0, 0], 0, 2);
    assert [0, 0, 0][1..] == [0, 0];
    Again([0, 1, 2], [0, 0], 0);
    assert [0, 0][1..] == [0];
    Again([0, 1, 2], [0], 1);
    assert [0][1..] == [];
    NoMore([0, 1, 2], 2);
  }

  lemma Lists()
    ensures Distinct([0, 1, 2]) && Distinct([2, 0, 1]) && Distinct([1, 2, 0]) && AllIn([2, 2, 1, 0, 0, 0], [0, 1, 2])
    ensures MoveFront([0, 1, 2], 2) == [2, 0, 1] && MoveFront([2, 0, 1], 2) == [1, 2, 0] && MoveFront([1, 2, 0], 2) == [0, 1, 2]
    ensures RunCode(0) == [] && RunCode(1) == [0] && RunCode(2) == [1]
  {
  }

  lemma NoMore(list: seq<nat>, z: nat)
    requires list != [] && Distinct(list)
    ensures Encode(list, [], z) == RunCode(z)
  {
  }

  // ---------- Its coding ----------

  lemma OneMoreLength(len: seq<nat>, v: nat)
    requires 1 <= v <= 3
    ensures CodeLengths.Kraft(len + [v], 17) == CodeLengths.Kraft(len, 17) + (if v == 1 then 65536 else if v == 2 then 32768 else 16384)
  {
    Pow2Values();
    assert Pow2(14) == 16384 && Pow2(15) == 32768;
    assert (len + [v])[..|len|] == len;
  }

  lemma LensAreGood()
    ensures GoodLengths(Lens0(), 5) && GoodLengths(Lens1(), 5)
  {
    hide CodeLengths.Kraft;
    Pow2Values();
    EmptyKraft();
    OneMoreLength([], 3);
    OneMoreLength([3], 3);
    OneMoreLength([3, 3], 2);
    OneMoreLength([3, 3, 2], 2);
    OneMoreLength([3, 3, 2, 2], 2);
    OneMoreLength([3, 3], 3);
    OneMoreLength([3, 3, 3], 1);
    OneMoreLength([3, 3, 3, 1], 3);
    assert [] + [3] == [3] && [3] + [3] == [3, 3] && [3, 3] + [2] == [3, 3, 2] && [3, 3, 2] + [2] == [3, 3, 2, 2];
    assert [3, 3, 2, 2] + [2] == Lens0() && [3, 3] + [3] == [3, 3, 3] && [3, 3, 3] + [1] == [3, 3, 3, 1] && [3, 3, 3, 1] + [3] == Lens1();
  }

  lemma EmptyKraft()
    ensures CodeLengths.Kraft([], 17) == 0
  {
  }

  lemma KnownIsGood()
    ensures GoodBlock(Known(), 9)
  {
    hide SortsRotations, Symbols, Used, CodeLengths.Kraft, LastColumn, Order, Banana, InUse, RunLength.Squeezed, RunLength.UnRle;
    RowsSorted();
    LastColumnIs();
    Fits();
    UsedBytes();
    KnownSymbols();
    LensAreGood();
    BananaRuns();
    OrderFacts();
  }

  lemma OrderFacts()
    ensures |Order()| == 6 && Order()[3] == 0 && |Banana()| == 6
  {
  }

  function Singles(d: Block): (r: seq<RunLength.Run>)
    ensures |r| == |d| && forall i :: 0 <= i < |r| ==> r[i] == RunLength.Run(d[i], 1)
  {
    seq(|d|, i requires 0 <= i < |d| => RunLength.Run(d[i], 1))
  }

  lemma {:induction false} SinglesStay(d: Block)
    requires forall i :: 0 <= i < |d| - 1 ==> d[i] != d[i + 1]
    ensures RunLength.Maximal(Singles(d)) && RunLength.Packed(Singles(d)) == d && RunLength.Unpacked(Singles(d)) == d
  {
    if d != [] {
      SinglesStay(d[1..]);
      assert Singles(d)[1..] == Singles(d[1..]);
      assert RunLength.RunBytes(Singles(d)[0]) == [d[0]] == RunLength.Rep(d[0], 1);
      assert d == [d[0]] + d[1..];
    }
  }

  lemma BananaRuns()
    ensures RunLength.UnRle(Banana()) == RunLength.Some(Banana()) && RunLength.Squeezed(Banana(), Banana())
  {
    SinglesStay(Banana());
    RunLength.UnRleOfPacked(Singles(Banana()));
  }

  // ---------- Its bits ----------

  lemma Join(a: nat, m: nat, b: nat, n: nat, p: nat)
    requires Pow2(n) == p && b < p
    ensures ToBits(a, m) + ToBits(b, n) == ToBits(a * p + b, m + n)
  {
    ToBitsConcat(a, m, b, n);
  }

  lemma AddBit(v: nat, n: nat, b: bool)
    ensures ToBits(v, n) + [b] == ToBits(2 * v + (if b then 1 else 0), n + 1)
  {
  }

  lemma Deltas0()
    ensures Deltas(3, Lens0()) == [false, false, true, true, false, false, false]
  {
    var l := Lens0();
    assert l[1..] == [3, 2, 2, 2] && l[1..][1..] == [2, 2, 2] && l[1..][1..][1..] == [2, 2] && l[1..][1..][1..][1..] == [2];
    assert [2][1..] == [];
    assert Steps(3, 3) == [] && Steps(2, 2) == [] && Steps(3, 2) == [true, true];
    assert Deltas(2, [2]) == [false];
    assert Deltas(2, [2, 2]) == [false, false];
    assert Deltas(3, [2, 2, 2]) == [true, true, false, false, false];
    assert Deltas(3, [3, 2, 2, 2]) == [false, true, true, false, false, false];
  }

  lemma Unchanged(curr: nat, lens: seq<nat>)
    requires lens != [] && lens[0] == curr
    ensures Deltas(curr, lens) == [false] + Deltas(curr, lens[1..])
  {
  }

  lemma Deltas1()
    ensures Deltas(3, Lens1()) == [false, false, false, true, true, true, true, false, true, false, true, false, false]
  {
    var l := Lens1();
    Unchanged(3, l);
    Unchanged(3, l[1..]);
    Unchanged(3, l[2..]);
    assert l[1..][1..] == l[2..] && l[2..][1..] == l[3..] && l[3..] == [1, 3] && [1, 3][1..] == [3] && [3][1..] == [];
    LastDeltas();
  }

  lemma LastDeltas()
    ensures Deltas(3, [1, 3]) == [true, true, true, true, false, true, false, true, false, false]
  {
    assert [1, 3][1..] == [3] && [3][1..] == [];
    assert Steps(3, 1) == [true, true, true, true] && Steps(1, 3) == [true, false, true, false];
    assert Deltas(1, [3]) == [true, false, true, false, false];
  }

  lemma Seven()
    ensures [false, false, true, true, false, false, false] == ToBits(0x18, 7)
  {
    hide ToBits;
    AddBit(0x0, 0, false);
    AddBit(0x0, 1, false);
    AddBit(0x0, 2, true);
    AddBit(0x1, 3, true);
    AddBit(0x3, 4, false);
    AddBit(0x6, 5, false);
    AddBit(0xc, 6, false);
  }

  lemma Thirteen()
    ensures [false, false, false, true, true, true, true, false, true, false, true, false, false] == ToBits(0x3d4, 13)
  {
    hide ToBits;
    AddBit(0x0, 0, false);
    AddBit(0x0, 1, false);
    AddBit(0x0, 2, false);
    AddBit(0x0, 3, true);
    AddBit(0x1, 4, true);
    AddBit(0x3, 5, true);
    AddBit(0x7, 6, true);
    AddBit(0xf, 7, false);
    AddBit(0x1e, 8, true);
    AddBit(0x3d, 9, false);
    AddBit(0x7a, 10, true);
    AddBit(0xf5, 11, false);
    AddBit(0x1ea, 12, false);
  }

  lemma Tables()
    ensures TableBits(Lens0()) == ToBits(0x198, 12) && TableBits(Lens1()) == ToBits(0x63d4, 18)
  {
    hide ToBits, Deltas;
    Deltas0();
    Deltas1();
    Seven();
    Thirteen();
    assert Pow2(7) == 128 && Pow2(13) == 8192;
    Join(3, 5, 0x18, 7, 128);
    Join(3, 5, 0x3d4, 13, 8192);
  }

  // ---------- Map, selectors, symbols ----------

  lemma RowSix(i: nat)
    requires i < 16
    ensures RowUsed(InUse(), i) <==> i == 6
  {
    if i == 6 {
      assert Row16(InUse(), 6)[1];
    } else {
      forall j | 0 <= j < 16 ensures !Row16(InUse(), i)[j] {
      }
    }
  }

  lemma {:induction false} HeadIs(i: nat)
    requires i <= 16
    ensures |HeadFrom(InUse(), i)| == 16 - i
    ensures forall k :: 0 <= k < 16 - i ==> HeadFrom(InUse(), i)[k] == (i + k == 6)
    decreases 16 - i
  {
    hide RowUsed, InUse;
    if i < 16 {
      RowSix(i);
      HeadIs(i + 1);
    }
  }

  lemma {:induction false} RowsAre(i: nat)
    requires i <= 16
    ensures RowsFrom(InUse(), i) == if i <= 6 then Row16(InUse(), 6) else []
    decreases 16 - i
  {
    hide RowUsed, InUse, Row16;
    if i < 16 {
      RowSix(i);
      RowsAre(i + 1);
    }
  }

  lemma SixteenHeads()
    ensures [false, false, false, false, false, false, true, false, false, false, false, false, false, false, false, false] == ToBits(0x200, 16)
  {
    hide ToBits;
    AddBit(0x0, 0, false);
    AddBit(0x0, 1, false);
    AddBit(0x0, 2, false);
    AddBit(0x0, 3, false);
    AddBit(0x0, 4, false);
    AddBit(0x0, 5, false);
    AddBit(0x0, 6, true);
    AddBit(0x1, 7, false);
    AddBit(0x2, 8, false);
    AddBit(0x4, 9, false);
    AddBit(0x8, 10, false);
    AddBit(0x10, 11, false);
    AddBit(0x20, 12, false);
    AddBit(0x40, 13, false);
    AddBit(0x80, 14, false);
    AddBit(0x100, 15, false);
  }

  lemma SixteenBytes()
    ensures [false, true, true, false, false, false, false, false, false, false, false, false, false, false, true, false] == ToBits(0x6002, 16)
  {
    hide ToBits;
    AddBit(0x0, 0, false);
    AddBit(0x0, 1, true);
    AddBit(0x1, 2, true);
    AddBit(0x3, 3, false);
    AddBit(0x6, 4, false);
    AddBit(0xc, 5, false);
    AddBit(0x18, 6, false);
    AddBit(0x30, 7, false);
    AddBit(0x60, 8, false);
    AddBit(0xc0, 9, false);
    AddBit(0x180, 10, false);
    AddBit(0x300, 11, false);
    AddBit(0x600, 12, false);
    AddBit(0xc00, 13, false);
    AddBit(0x1800, 14, true);
    AddBit(0x3001, 15, false);
  }

  lemma KnownMap()
    ensures HeadFrom(InUse(), 0) == ToBits(0x200, 16) && RowsFrom(InUse(), 0) == ToBits(0x6002, 16)
  {
    hide ToBits, HeadFrom, RowsFrom;
    HeadIs(0);
    RowsAre(0);
    SixteenHeads();
    SixteenBytes();
    assert HeadFrom(InUse(), 0) == [false, false, false, false, false, false, true, false, false, false, false, false, false, false, false, false];
    assert Row16(InUse(), 6) == [false, true, true, false, false, false, false, false, false, false, false, false, false, false, true, false];
  }

  lemma KnownSelectors()
    ensures AllIn([1], Iota(2)) && UnaryAll(Ranks([1], Iota(2))) == ToBits(2, 2)
  {
    assert Iota(2) == [0, 1] && [1][1..] == [];
    assert Ranks([1], Iota(2)) == [1];
    assert Unary(0) == [false] && Unary(1) == [true, false];
    AddBit(0, 0, true);
    AddBit(1, 1, false);
  }

  lemma KnownCodes()
    ensures CodeBits(Lens1(), 3) == ToBits(0, 1) && CodeBits(Lens1(), 0) == ToBits(4, 3)
    ensures CodeBits(Lens1(), 1) == ToBits(5, 3) && CodeBits(Lens1(), 4) == ToBits(7, 3)
  {
    var l := Lens1();
    assert |Positions(l, 0, 5)| == 0 && |Positions(l, 1, 5)| == 1 && |Positions(l, 2, 5)| == 0;
    assert First(l, 1) == 0 && First(l, 2) == 2 && First(l, 3) == 4;
    assert |Positions(l, 1, 3)| == 0 && |Positions(l, 3, 0)| == 0 && |Positions(l, 3, 1)| == 1 && |Positions(l, 3, 4)| == 3;
  }

  function KnownSyms(): seq<nat> { [3, 0, 3, 3, 1, 4] }

  lemma KnownCodable()
    ensures Codable(Known().coding, KnownSyms())
  {
    forall i | 0 <= i < 6 ensures CodableAt(Known().coding, KnownSyms(), i) {
    }
  }

  lemma OneSymbol(i: nat)
    requires i < 6 && Codable(Known().coding, KnownSyms())
    ensures SymbolBits(Known().coding, KnownSyms(), i)
         == CodeBits(Lens1(), KnownSyms()[i]) + SymbolBits(Known().coding, KnownSyms(), i + 1)
  {
    hide CodeBits;
  }

  lemma KnownSymbolBits()
    ensures Codable(Known().coding, KnownSyms())
    ensures SymbolBits(Known().coding, KnownSyms(), 0) == ToBits(0x42f, 12)
  {
    hide ToBits, Codable, CodeBits, SymbolBits, Known;
    KnownCodable();
    KnownCodes();
    OneSymbol(0);
    OneSymbol(1);
    OneSymbol(2);
    OneSymbol(3);
    OneSymbol(4);
    OneSymbol(5);
    LastSymbol();
    Powers();
    Join(5, 3, 7, 3, 8);
    Join(0, 1, 0x2f, 6, 64);
    Join(0, 1, 0x2f, 7, 128);
    Join(4, 3, 0x2f, 8, 256);
    Join(0, 1, 0x42f, 11, 2048);
    assert SymbolBits(Known().coding, KnownSyms(), 5) == ToBits(7, 3);
    assert SymbolBits(Known().coding, KnownSyms(), 4) == ToBits(0x2f, 6);
    assert SymbolBits(Known().coding, KnownSyms(), 3) == ToBits(0x2f, 7);
    assert SymbolBits(Known().coding, KnownSyms(), 2) == ToBits(0x2f, 8);
    assert SymbolBits(Known().coding, KnownSyms(), 1) == ToBits(0x42f, 11);
  }

  lemma LastSymbol()
    requires Codable(Known().coding, KnownSyms())
    ensures SymbolBits(Known().coding, KnownSyms(), 6) == []
  {
  }

  lemma Powers()
    ensures Pow2(1) == 2 && Pow2(2) == 4 && Pow2(3) == 8 && Pow2(6) == 64 && Pow2(7) == 128 && Pow2(8) == 256
    ensures Pow2(11) == 2048 && Pow2(12) == 4096 && Pow2(15) == 32768 && Pow2(16) == 65536 && Pow2(18) == 262144
  {
    Pow2Values();
    assert Pow2(11) == 2048;
  }

  // ---------- Its checksum ----------

  lemma OneUpdate(c: bv32, ch: Byte, b: bv8, i: bv8, e: bv32)
    requires b == ch as bv8 && MixByte(TopByte(c), b) == i && EntryAt(BlockCrcLaws.Crc32Table(), i) == e
    ensures Update(BlockCrcLaws.Crc32Table(), c, ch) == Mix(Up8(c), e)
  {
  }

  lemma Entries()
    ensures var t := BlockCrcLaws.Crc32Table();
            && EntryAt(t, 157) == 0x14d0bd4d && EntryAt(t, 138) == 0x46863638 && EntryAt(t, 7) == 0x1e475005
            && EntryAt(t, 187) == 0x9675461f && EntryAt(t, 196) == 0x4e8ee645 && EntryAt(t, 50) == 0xddb056fe
  {
  }

  lemma BananaSum()
    ensures BlockSum(BlockCrcLaws.Crc32Table(), Banana()) == 0xefb6ec01
  {
    hide Update, EntryAt;
    var t, b := BlockCrcLaws.Crc32Table(), Banana();
    Entries();
    OneUpdate(INITIAL, 98, 98, 157, 0x14d0bd4d);
    OneUpdate(0xeb2f424d, 97, 97, 138, 0x46863638);
    OneUpdate(0x69c47b38, 110, 110, 7, 0x1e475005);
    OneUpdate(0xda3c6805, 97, 97, 187, 0x9675461f);
    OneUpdate(0xaa1d431f, 110, 110, 196, 0x4e8ee645);
    OneUpdate(0x53cdf945, 97, 97, 50, 0xddb056fe);
    assert b[..5] == [98, 97, 110, 97, 110] && b[..5][..4] == [98, 97, 110, 97] && b[..5][..4][..3] == [98, 97, 110];
    assert [98, 97, 110][..2] == [98, 97] && [98, 97][..1] == [98] && [98][..0] == [];
    assert UpdateAll(t, INITIAL, [98]) == 0xeb2f424d;
    assert UpdateAll(t, INITIAL, [98, 97]) == 0x69c47b38;
    assert UpdateAll(t, INITIAL, [98, 97, 110]) == 0xda3c6805;
    assert UpdateAll(t, INITIAL, [98, 97, 110, 97]) == 0xaa1d431f;
    assert UpdateAll(t, INITIAL, [98, 97, 110, 97, 110]) == 0x53cdf945;
  }

  // ---------- The stream ----------

  lemma KnownBody()
    ensures Codable(Known().coding, KnownSyms()) && AllIn([1], Iota(2))
    ensures BodyBits(InUse(), Known().coding, KnownSyms()) == ToBits(0x80180090001866063d442f, 94)
  {
    hide ToBits, HeadFrom, RowsFrom, Ranks, UnaryAll, TableBits, SymbolBits, Codable, InUse;
    KnownMap();
    KnownSelectors();
    Tables();
    KnownSymbolBits();
    Powers();
    TwoTables();
    Nested(ToBits(0x200, 16), ToBits(0x6002, 16), ToBits(2, 3), ToBits(1, 15), ToBits(2, 2), ToBits(0x198, 12),
           ToBits(0x63d4, 18), ToBits(0x42f, 12));
    Join(0x200, 16, 0x6002, 16, 0x10000);
    Join(0x2006002, 32, 0x2, 3, 0x8);
    Join(0x10030012, 35, 0x1, 15, 0x8000);
    Join(0x80180090001, 50, 0x2, 2, 0x4);
    Join(0x200600240006, 52, 0x198, 12, 0x1000);
    Join(0x200600240006198, 64, 0x63d4, 18, 0x40000);
    Join(0x80180090001866063d4, 82, 0x42f, 12, 0x1000);
  }

  lemma TwoTables()
    ensures TablesBits([Lens0(), Lens1()]) == TableBits(Lens0()) + TableBits(Lens1())
  {
    hide TableBits;
    assert [Lens0(), Lens1()][1..] == [Lens1()] && [Lens1()][1..] == [];
    assert TablesBits([Lens1()]) == TableBits(Lens1());
  }

  lemma Nested(a: Bits, b: Bits, c: Bits, d: Bits, e: Bits, f: Bits, g: Bits, h: Bits)
    ensures a + (b + (c + (d + (e + ((f + g) + h))))) == a + b + c + d + e + f + g + h
  {
  }

  lemma WidePowers()
    ensures Pow2(24) == 0x1000000 && Pow2(32) == 0x100000000 && Pow2(48) == 0x1000000000000
    ensures Pow2(81) == 0x200000000000000000000 && Pow2(94) == 0x400000000000000000000000 && Pow2(105) == 0x200000000000000000000000000
  {
    Powers();
    Pow2Add(16, 8);
    Pow2Add(16, 16);
    Pow2Add(32, 16);
    Pow2Add(48, 32);
    Pow2Add(80, 1);
    Pow2Add(80, 8);
    Pow2Add(88, 6);
    Pow2Add(80, 24);
    Pow2Add(104, 1);
  }

  lemma KnownHead()
    ensures HeadBits(0xefb6ec01, 3) == ToBits(0x6282b24ca6b3df6dd802000003, 105)
  {
    hide ToBits, HeadBits;
    HeadFormat(0xefb6ec01, 3);
    assert Word(0xefb6ec01) == 0xefb6ec01;
    AddBit(0, 0, false);
    Powers();
    WidePowers();
    Join(0x314159265359, 48, 0xefb6ec01, 32, 0x100000000);
    Join(0x314159265359efb6ec01, 80, 0x0, 1, 0x2);
    Join(0x6282b24ca6b3df6dd802, 81, 0x3, 24, 0x1000000);
  }

  lemma KnownTail()
    ensures Trailer(0xefb6ec01) + Zeros(1) == ToBits(0x2ee48a70a121df6dd802, 81)
  {
    hide ToBits, Trailer;
    TrailerFormat(0xefb6ec01);
    assert Word(0xefb6ec01) == 0xefb6ec01;
    AddBit(0, 0, false);
    Powers();
    WidePowers();
    Join(0x177245385090, 48, 0xefb6ec01, 32, 0x100000000);
    Join(0x177245385090efb6ec01, 80, 0x0, 1, 0x2);
  }

  lemma KnownBlockBits()
    ensures GoodBlock(Known(), 9)
    ensures BlockBits(BlockCrcLaws.Crc32Table(), Known(), 9) == ToBits(0x6282b24ca6b3df6dd802000003, 105) + ToBits(0x80180090001866063d442f, 94)
  {
    hide ToBits, GoodBlock, HeadBits, BodyBits, Symbols, Used, BlockSum, InUse, LastColumn, Order, Banana;
    KnownIsGood();
    BananaSum();
    LastColumnIs();
    KnownSymbols();
    KnownHead();
    KnownBody();
  }

  lemma Folded()
    ensures ToBits(0x425a68, 24) + ToBits(0x39, 8) + ToBits(0x6282b24ca6b3df6dd802000003, 105) + ToBits(0x80180090001866063d442f, 94) + ToBits(0x2ee48a70a121df6dd802, 81) == ToBits(0x425a6839314159265359efb6ec0100000181003001200030cc0c7a885e2ee48a70a121df6dd802, 312)
  {
    hide ToBits, Pow2;
    Powers();
    WidePowers();
    Join(0x425a68, 24, 0x39, 8, 0x100);
    Join(0x425a6839, 32, 0x6282b24ca6b3df6dd802000003, 105, 0x200000000000000000000000000);
    Join(0x84b4d0726282b24ca6b3df6dd802000003, 137, 0x80180090001866063d442f, 94, 0x400000000000000000000000);
    Join(0x212d341c98a0ac9329acf7db7600800000c080180090001866063d442f, 231, 0x2ee48a70a121df6dd802, 81, 0x200000000000000000000);
  }

  lemma Unnested(a: Bits, b: Bits, c: Bits, d: Bits, t: Bits, z: Bits)
    ensures (a + b) + (c + d) + t + z == a + b + c + d + (t + z)
  {
  }

  /** The file bzip2 makes of "banana" at level 9. */
  lemma BananaFile()
    ensures GoodBlocks([Known()], 9)
    ensures StreamBits(BlockCrcLaws.Crc32Table(), [Known()], 9) + Zeros(1)
         == ToBits(0x425a6839314159265359efb6ec0100000181003001200030cc0c7a885e2ee48a70a121df6dd802, 312)
  {
    hide ToBits, GoodBlock, BlockBits, StreamHeader, Trailer, BlockSum, Zeros, Known, Banana;
    var t := BlockCrcLaws.Crc32Table();
    KnownBlockBits();
    StreamHeaderFormat(9);
    KnownTail();
    OneBlock(t);
    BananaSum();
    Folded();
    Unnested(ToBits(0x425a68, 24), ToBits(0x39, 8), ToBits(0x6282b24ca6b3df6dd802000003, 105), ToBits(0x80180090001866063d442f, 94), Trailer(0xefb6ec01), Zeros(1));
  }

  lemma OneBlock(t: CrcTable)
    requires GoodBlock(Known(), 9)
    ensures GoodBlocks([Known()], 9) && BlocksBits(t, [Known()], 9) == BlockBits(t, Known(), 9)
    ensures CombineAll(Sums(t, [Known()])) == BlockSum(t, Banana()) && Data([Known()]) == Banana()
  {
    hide GoodBlock, BlockBits, BlockSum;
    assert [Known()][1..] == [];
    assert Sums(t, [Known()]) == [BlockSum(t, Banana())];
    BlockCrcLaws.OneSum(BlockSum(t, Banana()));
  }

  /** And the decoder makes "banana" of it. */
  lemma BananaDecodes()
    ensures StreamRoundTrip.Decode(BlockCrcLaws.Crc32Table(), ToBits(0x425a6839314159265359efb6ec0100000181003001200030cc0c7a885e2ee48a70a121df6dd802, 312))
         == (Banana(), StreamRoundTrip.Ended)
  {
    hide ToBits, StreamBits, GoodBlock, StreamRoundTrip.DecodeFrom;
    BananaFile();
    KnownIsGood();
    OneBlock(BlockCrcLaws.Crc32Table());
    StreamRoundTrip.StreamDecodes(BlockCrcLaws.Crc32Table(), [Known()], 9, Zeros(1));
  }
}
