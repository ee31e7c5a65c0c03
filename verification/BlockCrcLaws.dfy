/** The block checksum as what it is for: the table of crctable.c, the
    bit-serial register it stands for, and the errors it detects. */
module BlockCrcLaws {
  import opened Arith
  import opened BlockCrc
  import opened Octets

  /** x^32 + x^26 + ... + 1, the highest power left out. */
  const POLY: bv32 := 0x04c11db7

  // ---------- The shift register ----------

  function Shl1(c: bv32): bv32 { c << 1 }
  predicate High(c: bv32) { c & 0x80000000 == 0x80000000 }
  function Aloft(b: bv8): bv32 { (b as bv32) << 24 }

  /** Shift up by one, and take the polynomial off if a one falls out. */
  function Step(c: bv32): bv32 {
    if High(c) then Mix(Shl1(c), POLY) else Shl1(c)
  }

  function Steps(c: bv32, n: nat): bv32 {
    if n == 0 then c else Step(Steps(c, n - 1))
  }

  function FeedBit(c: bv32, bit: bool): bv32 {
    Step(if bit then Mix(c, 0x80000000) else c)
  }

  /** Bit k of a byte, counted from the highest. */
  function Bit(b: bv8, k: nat): bool {
    match k
    case 0 => b & 128 == 128
    case 1 => b & 64 == 64
    case 2 => b & 32 == 32
    case 3 => b & 16 == 16
    case 4 => b & 8 == 8
    case 5 => b & 4 == 4
    case 6 => b & 2 == 2
    case _ => b & 1 == 1
  }

  /** Feed the k high bits of a byte, highest first. */
  function FeedBits(c: bv32, b: bv8, k: nat): bv32
    requires k <= 8
  {
    if k == 0 then c else FeedBit(FeedBits(c, b, k - 1), Bit(b, k - 1))
  }

  /** The register after all the bits of some bytes. */
  function Serial(c: bv32, bytes: seq<Byte>): bv32 {
    if bytes == [] then c else FeedBits(Serial(c, bytes[..|bytes| - 1]), bytes[|bytes| - 1] as bv8, 8)
  }

  lemma MixAssoc(a: bv32, b: bv32, c: bv32) ensures Mix(Mix(a, b), c) == Mix(a, Mix(b, c)) {}
  lemma MixComm(a: bv32, b: bv32) ensures Mix(a, b) == Mix(b, a) {}
  lemma MixSelf(a: bv32) ensures Mix(a, a) == 0 && Mix(a, 0) == a && Mix(0, a) == a {}
  lemma MixShl1(a: bv32, b: bv32) ensures Shl1(Mix(a, b)) == Mix(Shl1(a), Shl1(b)) {}

  lemma HighMix(a: bv32, b: bv32)
    ensures High(Mix(a, b)) <==> High(a) != High(b)
  {
    assert a & 0x80000000 == 0 || a & 0x80000000 == 0x80000000;
    assert b & 0x80000000 == 0 || b & 0x80000000 == 0x80000000;
    assert (a ^ b) & 0x80000000 == (a & 0x80000000) ^ (b & 0x80000000);
  }

  lemma MixTwice(p: bv32, a: bv32, b: bv32)
    ensures Mix(Mix(a, p), Mix(b, p)) == Mix(a, b)
    ensures Mix(Mix(a, p), b) == Mix(Mix(a, b), p) && Mix(a, Mix(b, p)) == Mix(Mix(a, b), p)
  {
    hide Mix;
    MixAssoc(a, p, b);
    MixComm(p, b);
    MixAssoc(a, b, p);
    MixAssoc(Mix(a, b), p, p);
    MixAssoc(Mix(a, p), b, p);
    MixSelf(p);
    MixSelf(Mix(a, b));
  }

  lemma StepLinear(x: bv32, y: bv32)
    ensures Step(Mix(x, y)) == Mix(Step(x), Step(y))
  {
    hide Mix, Shl1, High;
    HighMix(x, y);
    MixShl1(x, y);
    MixTwice(POLY, Shl1(x), Shl1(y));
  }

  lemma {:induction false} StepsLinear(x: bv32, y: bv32, n: nat)
    ensures Steps(Mix(x, y), n) == Mix(Steps(x, n), Steps(y, n))
  {
    hide Step, Mix;
    if n > 0 {
      StepsLinear(x, y, n - 1);
      StepLinear(Steps(x, n - 1), Steps(y, n - 1));
    }
  }

  /** What is left of a byte when k bits are gone. */
  function Rest(b: bv8, k: nat): bv8 {
    match k
    case 0 => b
    case 1 => b << 1
    case 2 => b << 2
    case 3 => b << 3
    case 4 => b << 4
    case 5 => b << 5
    case 6 => b << 6
    case 7 => b << 7
    case _ => 0
  }

  lemma RestStep(b: bv8, k: nat)
    requires k < 8
    ensures High(Aloft(Rest(b, k))) == Bit(b, k) && Shl1(Aloft(Rest(b, k))) == Aloft(Rest(b, k + 1))
  {
    RestBits(b, k);
    AloftStep(Rest(b, k));
  }

  lemma RestBits(b: bv8, k: nat)
    requires k < 8
    ensures (Rest(b, k) & 128 == 128) == Bit(b, k) && Rest(b, k) << 1 == Rest(b, k + 1)
  {
  }

  lemma AloftStep(x: bv8)
    ensures High(Aloft(x)) == (x & 128 == 128) && Shl1(Aloft(x)) == Aloft(x << 1)
  {
  }

  /** A bit mixed in when it is due, or with all others beforehand. */
  lemma FeedMixed(f: bv32, r: bv32)
    ensures Step(Mix(f, r)) == Mix(FeedBit(f, High(r)), Shl1(r))
  {
    hide Mix, Step;
    var top: bv32 := if High(r) then 0x80000000 else 0;
    var tail := Mix(top, r);
    TailOnly(r);
    MixAssoc(f, top, tail);
    MixAssoc(top, top, r);
    MixSelf(top);
    MixSelf(r);
    MixSelf(f);
    StepLinear(Mix(f, top), tail);
  }

  lemma TailOnly(r: bv32)
    ensures Step(Mix(if High(r) then 0x80000000 else 0, r)) == Shl1(r)
  {
    TailRaw(r);
  }

  lemma TailRaw(r: bv32)
    ensures r & 0x80000000 == 0x80000000 ==> (0x80000000 ^ r) & 0x80000000 == 0 && (0x80000000 ^ r) << 1 == r << 1
    ensures 0 ^ r == r
  {
  }

  lemma {:induction false} FeedBitsMixed(c: bv32, b: bv8, k: nat)
    requires k <= 8
    ensures Steps(Mix(c, Aloft(b)), k) == Mix(FeedBits(c, b, k), Aloft(Rest(b, k)))
  {
    hide Mix, Step, FeedBit, Bit, High, Rest, Shl1, Aloft;
    if k == 0 {
      RestStart(b);
    } else {
      FeedBitsMixed(c, b, k - 1);
      RestStep(b, k - 1);
      FeedMixed(FeedBits(c, b, k - 1), Aloft(Rest(b, k - 1)));
    }
  }

  lemma RestStart(b: bv8)
    ensures Rest(b, 0) == b && Aloft(Rest(b, 8)) == 0
  {
  }

  /** Eight bits at once: mix the byte in on top, then eight steps. */
  lemma ByteAtOnce(c: bv32, b: bv8)
    ensures FeedBits(c, b, 8) == Steps(Mix(c, Aloft(b)), 8)
  {
    hide Mix, Steps, FeedBits, Rest, Aloft;
    FeedBitsMixed(c, b, 8);
    RestStart(b);
    MixSelf(FeedBits(c, b, 8));
  }

  // ---------- The table ----------

  /** Entry i is what eight steps make of i on top of the register. */
  ghost predicate HoldsTable(table: CrcTable) {
    forall b: bv8 :: EntryAt(table, b) == Steps(Aloft(b), 8)
  }

  lemma SplitTop(y: bv32)
    ensures y == Mix(Aloft(TopByte(y)), y & 0x00ffffff) && Up8(y & 0x00ffffff) == Up8(y)
  {
    TopAloft(y);
    assert (y & 0xff000000) ^ (y & 0x00ffffff) == y;
  }

  lemma TopAloft(y: bv32)
    ensures Aloft(TopByte(y)) == y & 0xff000000
  {
    var w := y >> 24;
    Narrow(w);
    ShiftedBack(y);
  }

  lemma Narrow(w: bv32)
    requires w <= 0xff
    ensures (w as bv8) as bv32 == w
  {
  }

  lemma ShiftedBack(y: bv32)
    ensures y >> 24 <= 0xff && (y >> 24) << 24 == y & 0xff000000
  {
  }

  /** Bits that do not reach the top are only shifted. */
  lemma ShiftOnly(y: bv32)
    requires y & 0xff000000 == 0
    ensures Steps(y, 8) == Up8(y)
  {
    hide Step;
    NoHighBits(y);
    assert Steps(y, 1) == y << 1;
    assert Steps(y, 2) == y << 2;
    assert Steps(y, 3) == y << 3;
    assert Steps(y, 4) == y << 4;
    assert Steps(y, 5) == y << 5;
    assert Steps(y, 6) == y << 6;
    assert Steps(y, 7) == y << 7;
  }

  lemma NoHighBits(y: bv32)
    requires y & 0xff000000 == 0
    ensures Step(y) == y << 1 && Step(y << 1) == y << 2 && Step(y << 2) == y << 3 && Step(y << 3) == y << 4
    ensures Step(y << 4) == y << 5 && Step(y << 5) == y << 6 && Step(y << 6) == y << 7 && Step(y << 7) == y << 8
  {
  }

  lemma ClearTop(y: bv32)
    ensures (y & 0x00ffffff) & 0xff000000 == 0
  {
  }

  /** Eight steps by table. */
  lemma TableStep(table: CrcTable, y: bv32)
    requires HoldsTable(table)
    ensures Steps(y, 8) == Mix(EntryAt(table, TopByte(y)), Up8(y))
  {
    hide Mix, Steps, Up8, Aloft, TopByte, EntryAt;
    SplitTop(y);
    StepsLinear(Aloft(TopByte(y)), y & 0x00ffffff, 8);
    ClearTop(y);
    ShiftOnly(y & 0x00ffffff);
  }

  lemma MixedTop(c: bv32, b: bv8)
    ensures TopByte(Mix(c, Aloft(b))) == MixByte(TopByte(c), b) && Up8(Mix(c, Aloft(b))) == Up8(c)
  {
  }

  /** BZ_UPDATE_CRC feeds the register the eight bits of the byte. */
  lemma UpdateIsByte(table: CrcTable, c: bv32, ch: Byte)
    requires HoldsTable(table)
    ensures Update(table, c, ch) == FeedBits(c, ch as bv8, 8)
  {
    hide Steps, FeedBits, Update, Mix, Aloft, TopByte, Up8, EntryAt, HoldsTable;
    var b := ch as bv8;
    ByteAtOnce(c, b);
    TableStep(table, Mix(c, Aloft(b)));
    MixedTop(c, b);
    UpdateUnfold(table, c, ch);
    MixComm(EntryAt(table, IndexFor(c, ch)), Up8(c));
  }

  lemma UpdateUnfold(table: CrcTable, c: bv32, ch: Byte)
    ensures Update(table, c, ch) == Mix(Up8(c), EntryAt(table, IndexFor(c, ch)))
  {
  }

  /** The checksum of a block is that of the bit-serial register. */
  lemma {:induction false} UpdateAllIsSerial(table: CrcTable, c: bv32, bytes: seq<Byte>)
    requires HoldsTable(table)
    ensures UpdateAll(table, c, bytes) == Serial(c, bytes)
  {
    hide Update, FeedBits, HoldsTable;
    if bytes != [] {
      var n := |bytes| - 1;
      UpdateAllIsSerial(table, c, bytes[..n]);
      UpdateIsByte(table, Serial(c, bytes[..n]), bytes[n]);
    }
  }

  // ---------- crctable.c ----------

  function Rows0(r: nat): (s: seq<bv32>)
    ensures |s| == 8
  {
    match r
    case 0 => [0x00000000, 0x04c11db7, 0x09823b6e, 0x0d4326d9, 0x130476dc, 0x17c56b6b, 0x1a864db2, 0x1e475005]
    case 1 => [0x2608edb8, 0x22c9f00f, 0x2f8ad6d6, 0x2b4bcb61, 0x350c9b64, 0x31cd86d3, 0x3c8ea00a, 0x384fbdbd]
    case 2 => [0x4c11db70, 0x48d0c6c7, 0x4593e01e, 0x4152fda9, 0x5f15adac, 0x5bd4b01b, 0x569796c2, 0x52568b75]
    case 3 => [0x6a1936c8, 0x6ed82b7f, 0x639b0da6, 0x675a1011, 0x791d4014, 0x7ddc5da3, 0x709f7b7a, 0x745e66cd]
    case 4 => [0x9823b6e0, 0x9ce2ab57, 0x91a18d8e, 0x95609039, 0x8b27c03c, 0x8fe6dd8b, 0x82a5fb52, 0x8664e6e5]
    case 5 => [0xbe2b5b58, 0xbaea46ef, 0xb7a96036, 0xb3687d81, 0xad2f2d84, 0xa9ee3033, 0xa4ad16ea, 0xa06c0b5d]
    case 6 => [0xd4326d90, 0xd0f37027, 0xddb056fe, 0xd9714b49, 0xc7361b4c, 0xc3f706fb, 0xceb42022, 0xca753d95]
    case _ => [0xf23a8028, 0xf6fb9d9f, 0xfbb8bb46, 0xff79a6f1, 0xe13ef6f4, 0xe5ffeb43, 0xe8bccd9a, 0xec7dd02d]
  }

  function Rows1(r: nat): (s: seq<bv32>)
    ensures |s| == 8
  {
    match r
    case 0 => [0x34867077, 0x30476dc0, 0x3d044b19, 0x39c556ae, 0x278206ab, 0x23431b1c, 0x2e003dc5, 0x2ac12072]
    case 1 => [0x128e9dcf, 0x164f8078, 0x1b0ca6a1, 0x1fcdbb16, 0x018aeb13, 0x054bf6a4, 0x0808d07d, 0x0cc9cdca]
    case 2 => [0x7897ab07, 0x7c56b6b0, 0x71159069, 0x75d48dde, 0x6b93dddb, 0x6f52c06c, 0x6211e6b5, 0x66d0fb02]
    case 3 => [0x5e9f46bf, 0x5a5e5b08, 0x571d7dd1, 0x53dc6066, 0x4d9b3063, 0x495a2dd4, 0x44190b0d, 0x40d816ba]
    case 4 => [0xaca5c697, 0xa864db20, 0xa527fdf9, 0xa1e6e04e, 0xbfa1b04b, 0xbb60adfc, 0xb6238b25, 0xb2e29692]
    case 5 => [0x8aad2b2f, 0x8e6c3698, 0x832f1041, 0x87ee0df6, 0x99a95df3, 0x9d684044, 0x902b669d, 0x94ea7b2a]
    case 6 => [0xe0b41de7, 0xe4750050, 0xe9362689, 0xedf73b3e, 0xf3b06b3b, 0xf771768c, 0xfa325055, 0xfef34de2]
    case _ => [0xc6bcf05f, 0xc27dede8, 0xcf3ecb31, 0xcbffd686, 0xd5b88683, 0xd1799b34, 0xdc3abded, 0xd8fba05a]
  }

  function Rows2(r: nat): (s: seq<bv32>)
    ensures |s| == 8
  {
    match r
    case 0 => [0x690ce0ee, 0x6dcdfd59, 0x608edb80, 0x644fc637, 0x7a089632, 0x7ec98b85, 0x738aad5c, 0x774bb0eb]
    case 1 => [0x4f040d56, 0x4bc510e1, 0x46863638, 0x42472b8f, 0x5c007b8a, 0x58c1663d, 0x558240e4, 0x51435d53]
    case 2 => [0x251d3b9e, 0x21dc2629, 0x2c9f00f0, 0x285e1d47, 0x36194d42, 0x32d850f5, 0x3f9b762c, 0x3b5a6b9b]
    case 3 => [0x0315d626, 0x07d4cb91, 0x0a97ed48, 0x0e56f0ff, 0x1011a0fa, 0x14d0bd4d, 0x19939b94, 0x1d528623]
    case 4 => [0xf12f560e, 0xf5ee4bb9, 0xf8ad6d60, 0xfc6c70d7, 0xe22b20d2, 0xe6ea3d65, 0xeba91bbc, 0xef68060b]
    case 5 => [0xd727bbb6, 0xd3e6a601, 0xdea580d8, 0xda649d6f, 0xc423cd6a, 0xc0e2d0dd, 0xcda1f604, 0xc960ebb3]
    case 6 => [0xbd3e8d7e, 0xb9ff90c9, 0xb4bcb610, 0xb07daba7, 0xae3afba2, 0xaafbe615, 0xa7b8c0cc, 0xa379dd7b]
    case _ => [0x9b3660c6, 0x9ff77d71, 0x92b45ba8, 0x9675461f, 0x8832161a, 0x8cf30bad, 0x81b02d74, 0x857130c3]
  }

  function Rows3(r: nat): (s: seq<bv32>)
    ensures |s| == 8
  {
    match r
    case 0 => [0x5d8a9099, 0x594b8d2e, 0x5408abf7, 0x50c9b640, 0x4e8ee645, 0x4a4ffbf2, 0x470cdd2b, 0x43cdc09c]
    case 1 => [0x7b827d21, 0x7f436096, 0x7200464f, 0x76c15bf8, 0x68860bfd, 0x6c47164a, 0x61043093, 0x65c52d24]
    case 2 => [0x119b4be9, 0x155a565e, 0x18197087, 0x1cd86d30, 0x029f3d35, 0x065e2082, 0x0b1d065b, 0x0fdc1bec]
    case 3 => [0x3793a651, 0x3352bbe6, 0x3e119d3f, 0x3ad08088, 0x2497d08d, 0x2056cd3a, 0x2d15ebe3, 0x29d4f654]
    case 4 => [0xc5a92679, 0xc1683bce, 0xcc2b1d17, 0xc8ea00a0, 0xd6ad50a5, 0xd26c4d12, 0xdf2f6bcb, 0xdbee767c]
    case 5 => [0xe3a1cbc1, 0xe760d676, 0xea23f0af, 0xeee2ed18, 0xf0a5bd1d, 0xf464a0aa, 0xf9278673, 0xfde69bc4]
    case 6 => [0x89b8fd09, 0x8d79e0be, 0x803ac667, 0x84fbdbd0, 0x9abc8bd5, 0x9e7d9662, 0x933eb0bb, 0x97ffad0c]
    case _ => [0xafb010b1, 0xab710d06, 0xa6322bdf, 0xa2f33668, 0xbcb4666d, 0xb8757bda, 0xb5365d03, 0xb1f740b4]
  }

  function Row(r: nat): (s: seq<bv32>)
    ensures |s| == 8
  {
    if r < 16 then
      if r < 8 then Rows0(r) else Rows1(r - 8)
    else
      if r < 24 then Rows2(r - 16) else Rows3(r - 24)
  }

  /** BZ2_crc32Table. */
  function Crc32Table(): (t: CrcTable) {
    seq(256, i requires 0 <= i < 256 => Row(i / 8)[i % 8])
  }

  /** Entries 16 r to 16 r + 15 follow from entries 8 r to 8 r + 7: a zero bit
      more, and a one bit more. */
  predicate PairsHold(r: nat) {
    var s, t, u := Row(r), Row(2 * r), Row(2 * r + 1);
    && Pair(t[0], t[1], s[0]) && Pair(t[2], t[3], s[1]) && Pair(t[4], t[5], s[2]) && Pair(t[6], t[7], s[3])
    && Pair(u[0], u[1], s[4]) && Pair(u[2], u[3], s[5]) && Pair(u[4], u[5], s[6]) && Pair(u[6], u[7], s[7])
  }

  predicate Pair(even: bv32, odd: bv32, half: bv32) {
    even == Step(half) && odd == Mix(even, POLY)
  }

  lemma PairsHold0And1()
    ensures PairsHold(0) && PairsHold(1)
  {
    assert PairsHold(0);
  }

  lemma PairsHold2And3()
    ensures PairsHold(2) && PairsHold(3)
  {
    assert PairsHold(2);
  }

  lemma PairsHold4And5()
    ensures PairsHold(4) && PairsHold(5)
  {
    assert PairsHold(4);
  }

  lemma PairsHold6And7()
    ensures PairsHold(6) && PairsHold(7)
  {
    assert PairsHold(6);
  }

  lemma PairsHold8And9()
    ensures PairsHold(8) && PairsHold(9)
  {
    assert PairsHold(8);
  }

  lemma PairsHold10And11()
    ensures PairsHold(10) && PairsHold(11)
  {
    assert PairsHold(10);
  }

  lemma PairsHold12And13()
    ensures PairsHold(12) && PairsHold(13)
  {
    assert PairsHold(12);
  }

  lemma PairsHold14And15()
    ensures PairsHold(14) && PairsHold(15)
  {
    assert PairsHold(14);
  }

  lemma AllPairsHold(r: nat)
    requires r < 16
    ensures PairsHold(r)
  {
    hide PairsHold, Row, Pair;
    PairsHold0And1();
    PairsHold2And3();
    PairsHold4And5();
    PairsHold6And7();
    PairsHold8And9();
    PairsHold10And11();
    PairsHold12And13();
    PairsHold14And15();
    assert r == 0 || r == 1 || r == 2 || r == 3 || r == 4 || r == 5 || r == 6 || r == 7
        || r == 8 || r == 9 || r == 10 || r == 11 || r == 12 || r == 13 || r == 14 || r == 15;
  }

  lemma Follows(j: nat)
    requires j < 128
    ensures Pair(Crc32Table()[2 * j], Crc32Table()[2 * j + 1], Crc32Table()[j])
  {
    hide Row, Pair;
    var r, k := j / 8, j % 8;
    AllPairsHold(r);
    if k < 4 {
      Places(2 * j, 2 * r, 2 * k);
    } else {
      Places(2 * j, 2 * r + 1, 2 * k - 8);
    }
  }

  lemma Places(i: nat, r: nat, k: nat)
    requires i == 8 * r + k && k < 7
    ensures i / 8 == (i + 1) / 8 == r && i % 8 == k && (i + 1) % 8 == k + 1
  {
  }

  lemma FirstEntry()
    ensures Row(0)[0] == 0
  {
  }

  lemma HalfByte(b: bv8)
    ensures b as int == 2 * ((b >> 1) as int) + ((b & 1) as int) && (b & 1 == 0 || b & 1 == 1)
    ensures b != 0 ==> (b >> 1) as int < b as int
    ensures (b >> 1) as int < 128
  {
  }

  lemma AloftHalf(b: bv8)
    ensures Aloft(b) == Mix(Step(Aloft(b >> 1)), Aloft(b & 1))
  {
  }

  lemma OneStep()
    ensures Steps(Aloft(0), 8) == 0 && Steps(Aloft(1), 8) == POLY
  {
    assert Aloft(1) == 0x01000000 && Aloft(0) == 0;
    NoHighBits(0);
    var y: bv32 := 0x01000000;
    assert Steps(y, 1) == 0x02000000;
    assert Steps(y, 2) == 0x04000000;
    assert Steps(y, 3) == 0x08000000;
    assert Steps(y, 4) == 0x10000000;
    assert Steps(y, 5) == 0x20000000;
    assert Steps(y, 6) == 0x40000000;
    assert Steps(y, 7) == 0x80000000;
  }

  /** The table in crctable.c is the table of the polynomial. */
  lemma {:induction false} EntryHolds(b: bv8)
    ensures EntryAt(Crc32Table(), b) == Steps(Aloft(b), 8)
    decreases b as int
  {
    hide Step, Steps, Aloft, Mix, Row;
    OneStep();
    if b == 0 {
      assert Row(0)[0] == 0 by { FirstEntry(); }
    } else {
      var h := b >> 1;
      HalfByte(b);
      EntryHolds(h);
      Follows(h as int);
      AloftHalf(b);
      StepsLinear(Step(Aloft(h)), Aloft(b & 1), 8);
      StepsCommute(Aloft(h), 8);
      MixSelf(Step(Steps(Aloft(h), 8)));
    }
  }

  lemma {:induction false} StepsCommute(c: bv32, n: nat)
    ensures Steps(Step(c), n) == Step(Steps(c, n))
  {
    hide Step;
    if n > 0 {
      StepsCommute(c, n - 1);
    }
  }

  lemma TableHolds()
    ensures HoldsTable(Crc32Table())
  {
    forall b: bv8 ensures EntryAt(Crc32Table(), b) == Steps(Aloft(b), 8) {
      EntryHolds(b);
    }
  }

  lemma KnownEntry()
    ensures Crc32Table()[158] == 0x19939b94
  {
  }

  /** The checksums of no data and of one letter. */
  lemma KnownSums()
    ensures BlockSum(Crc32Table(), []) == 0
    ensures BlockSum(Crc32Table(), [0x61]) == 0x19939b6b
  {
    hide Row;
    var t := Crc32Table();
    assert TopByte(INITIAL) == 0xff;
    assert IndexFor(INITIAL, 0x61) == 0x9e;
    KnownEntry();
    assert Update(t, INITIAL, 0x61) == 0xe66c6494;
    assert [0x61][..0] == [];
    assert UpdateAll(t, INITIAL, [0x61]) == 0xe66c6494;
  }

  // ---------- What the checksum detects ----------

  function Low(c: bv32): bv32 { c & 0xff }

  /** Entries are told apart by their low bytes. */
  ghost predicate Tells(table: CrcTable) {
    forall a: bv8, b: bv8 :: Low(EntryAt(table, a)) == Low(EntryAt(table, b)) ==> a == b
  }

  function Masked(c: bv32, m: bv32): bv32 { c & m }

  /** The n low bytes of a register. */
  function LowBytes(c: bv32, n: nat): bv32 {
    match n
    case 0 => 0
    case 1 => Masked(c, 0xff)
    case 2 => Masked(c, 0xffff)
    case 3 => Masked(c, 0xffffff)
    case _ => c
  }

  lemma LowOfLow(x: bv32, y: bv32, n: nat)
    requires 1 <= n && LowBytes(x, n) == LowBytes(y, n)
    ensures Low(x) == Low(y)
  {
    LowRaw(x);
    LowRaw(y);
  }

  lemma LowRaw(x: bv32)
    ensures (x & 0xffff) & 0xff == x & 0xff && (x & 0xffffff) & 0xff == x & 0xff
  {
  }

  lemma LowOfMix(c: bv32, e: bv32)
    ensures Low(Mix(Up8(c), e)) == Low(e)
  {
  }

  lemma LowByteOfEntry(c: bv32, c': bv32, e: bv32, e': bv32, n: nat)
    requires 1 <= n && LowBytes(Mix(Up8(c), e), n) == LowBytes(Mix(Up8(c'), e'), n)
    ensures Low(e) == Low(e')
  {
    hide Mix, Up8, Low, LowBytes;
    LowOfLow(Mix(Up8(c), e), Mix(Up8(c'), e'), n);
    LowOfMix(c, e);
    LowOfMix(c', e');
  }

  lemma MaskedMix(x: bv32, y: bv32)
    ensures Masked(Mix(x, y), 0xffff) == Mix(Masked(x, 0xffff), Masked(y, 0xffff))
    ensures Masked(Mix(x, y), 0xffffff) == Mix(Masked(x, 0xffffff), Masked(y, 0xffffff))
  {
  }

  lemma CancelMask(u: bv32, v: bv32, e: bv32, m: bv32)
    requires (m == 0xffff || m == 0xffffff) && Masked(Mix(u, e), m) == Masked(Mix(v, e), m)
    ensures Masked(u, m) == Masked(v, m)
  {
    hide Masked, Mix;
    MaskedMix(u, e);
    MaskedMix(v, e);
    MixCancel(Masked(u, m), Masked(v, m), Masked(e, m));
  }

  function Down8(c: bv32): bv32 { c >> 8 }

  lemma ShiftBack(c: bv32)
    ensures Masked(c, 0xff) == Down8(Masked(Up8(c), 0xffff))
    ensures Masked(c, 0xffff) == Down8(Masked(Up8(c), 0xffffff))
    ensures Masked(c, 0xffffff) == Down8(Up8(c))
  {
  }

  lemma ShiftMask(c: bv32, c': bv32, n: nat)
    requires 1 <= n <= 3 && LowBytes(Up8(c), n + 1) == LowBytes(Up8(c'), n + 1)
    ensures LowBytes(c, n) == LowBytes(c', n)
  {
    hide Masked, Up8, Down8;
    ShiftBack(c);
    ShiftBack(c');
  }

  lemma LowBytesBefore(c: bv32, c': bv32, e: bv32, n: nat)
    requires n <= 3 && LowBytes(Mix(Up8(c), e), n + 1) == LowBytes(Mix(Up8(c'), e), n + 1)
    ensures LowBytes(c, n) == LowBytes(c', n)
  {
    hide Masked, Mix, Up8;
    if n == 1 {
      CancelMask(Up8(c), Up8(c'), e, 0xffff);
      ShiftMask(c, c', n);
    } else if n == 2 {
      CancelMask(Up8(c), Up8(c'), e, 0xffffff);
      ShiftMask(c, c', n);
    } else if n == 3 {
      MixCancel(Up8(c), Up8(c'), e);
      ShiftMask(c, c', n);
    }
  }

  lemma SameIndex(c: bv32, x: Byte, x': Byte)
    requires IndexFor(c, x) == IndexFor(c, x')
    ensures x == x'
  {
    hide MixByte, TopByte;
    CancelByte(TopByte(c), x as bv8, x' as bv8);
    ByteBack(x);
    ByteBack(x');
  }

  lemma CancelByte(t: bv8, b: bv8, b': bv8)
    ensures MixByte(t, b) == MixByte(t, b') ==> b == b'
    ensures MixByte(b, t) == MixByte(b', t) ==> b == b'
  {
  }

  /** Up to four bytes can be read off the low bytes they leave behind. */
  lemma {:induction false} BytesTold(table: CrcTable, c: bv32, a: seq<Byte>, b: seq<Byte>)
    requires Tells(table) && |a| == |b| <= 4
    requires LowBytes(UpdateAll(table, c, a), |a|) == LowBytes(UpdateAll(table, c, b), |b|)
    ensures a == b
    decreases |a|
  {
    hide Up8, EntryAt, IndexFor, Mix, Low, LowBytes;
    if a != [] {
      var k := |a| - 1;
      var r, r' := UpdateAll(table, c, a[..k]), UpdateAll(table, c, b[..k]);
      LowByteOfEntry(r, r', EntryAt(table, IndexFor(r, a[k])), EntryAt(table, IndexFor(r', b[k])), k + 1);
      LowBytesBefore(r, r', EntryAt(table, IndexFor(r, a[k])), k);
      BytesTold(table, c, a[..k], b[..k]);
      SameIndex(r, a[k], b[k]);
      assert a == a[..k] + [a[k]] && b == b[..k] + [b[k]];
    }
  }

  lemma TopAndRest(c: bv32, c': bv32, x: Byte)
    requires IndexFor(c, x) == IndexFor(c', x) && Up8(c) == Up8(c')
    ensures c == c'
  {
    hide MixByte, TopByte, Up8;
    CancelByte(x as bv8, TopByte(c), TopByte(c'));
    BytesJoin(c, c');
  }

  lemma BytesJoin(c: bv32, c': bv32)
    requires TopByte(c) == TopByte(c') && Up8(c) == Up8(c')
    ensures c == c'
  {
    assert c >> 24 == c' >> 24;
  }

  lemma CancelAll(u: bv32, v: bv32, e: bv32)
    requires u ^ e == v ^ e
    ensures u == v
  {
  }

  lemma MixCancel(u: bv32, v: bv32, e: bv32)
    requires Mix(u, e) == Mix(v, e)
    ensures u == v
  {
    CancelAll(u, v, e);
  }

  /** Registers that differ keep differing under the same bytes. */
  lemma {:induction false} StaysDifferent(table: CrcTable, c: bv32, c': bv32, bytes: seq<Byte>)
    requires Tells(table) && UpdateAll(table, c, bytes) == UpdateAll(table, c', bytes)
    ensures c == c'
    decreases |bytes|
  {
    hide Up8, EntryAt, IndexFor, Mix, Low, LowBytes;
    if bytes != [] {
      var k := |bytes| - 1;
      var r, r', x := UpdateAll(table, c, bytes[..k]), UpdateAll(table, c', bytes[..k]), bytes[k];
      LowByteOfEntry(r, r', EntryAt(table, IndexFor(r, x)), EntryAt(table, IndexFor(r', x)), 4);
      MixCancel(Up8(r), Up8(r'), EntryAt(table, IndexFor(r, x)));
      TopAndRest(r, r', x);
      StaysDifferent(table, c, c', bytes[..k]);
    }
  }

  /** Damage confined to four bytes in a row always changes the checksum. */
  lemma BurstDetected(table: CrcTable, before: seq<Byte>, a: seq<Byte>, b: seq<Byte>, after: seq<Byte>)
    requires Tells(table) && |a| == |b| <= 4 && a != b
    ensures BlockSum(table, before + a + after) != BlockSum(table, before + b + after)
  {
    hide UpdateAll, Tells, Finalise, LowBytes;
    var c := UpdateAll(table, INITIAL, before);
    UpdateConcat(table, INITIAL, before, a);
    UpdateConcat(table, INITIAL, before, b);
    UpdateConcat(table, INITIAL, before + a, after);
    UpdateConcat(table, INITIAL, before + b, after);
    var r, r' := UpdateAll(table, INITIAL, before + a + after), UpdateAll(table, INITIAL, before + b + after);
    if Finalise(r) == Finalise(r') {
      FinaliseTells(r, r');
      StaysDifferent(table, UpdateAll(table, c, a), UpdateAll(table, c, b), after);
      BytesTold(table, c, a, b);
    }
  }

  lemma FinaliseTells(x: bv32, y: bv32)
    requires Finalise(x) == Finalise(y)
    ensures x == y
  {
  }

  lemma LowMix(x: bv32, y: bv32)
    requires Low(x) == Low(y)
    ensures Low(Mix(x, y)) == 0
  {
  }

  lemma AloftMix(a: bv8, b: bv8)
    ensures Mix(Aloft(a), Aloft(b)) == Aloft(a ^ b) && (a ^ b == 0 ==> a == b)
  {
  }

  lemma EightSteps(y: bv32)
    ensures Steps(y, 8) == Step(Step(Step(Step(Step(Step(Step(Step(y))))))))
  {
    hide Step;
    assert Steps(y, 1) == Step(y);
    assert Steps(y, 2) == Step(Step(y));
    assert Steps(y, 4) == Step(Step(Steps(y, 2)));
    assert Steps(y, 6) == Step(Step(Steps(y, 4)));
  }

  /** The lowest byte of an entry is lost by no index but zero. */
  lemma LowOfSteps(b: bv8)
    requires Low(Step(Step(Step(Step(Step(Step(Step(Step(Aloft(b)))))))))) == 0
    ensures b == 0
  {
  }

  /** A table of the polynomial tells its entries apart. */
  lemma TableTells(table: CrcTable)
    requires HoldsTable(table)
    ensures Tells(table)
  {
    forall a: bv8, b: bv8 | Low(EntryAt(table, a)) == Low(EntryAt(table, b)) ensures a == b {
      hide Steps, Step, Aloft, Mix, Low, EntryAt;
      StepsLinear(Aloft(a), Aloft(b), 8);
      LowMix(Steps(Aloft(a), 8), Steps(Aloft(b), 8));
      AloftMix(a, b);
      EightSteps(Aloft(a ^ b));
      LowOfSteps(a ^ b);
    }
  }

  // ---------- The checksum of the stream ----------

  function Rotated(c: bv32): bv32 { (c << 1) | (c >> 31) }

  lemma CombineIsMix(c: bv32, b: bv32)
    ensures Combine(c, b) == Mix(Rotated(c), b)
  {
  }

  lemma RotatedMix(a: bv32, b: bv32)
    ensures Rotated(Mix(a, b)) == Mix(Rotated(a), Rotated(b)) && Rotated(0) == 0
  {
  }

  /** Only a register of equal bits is its own rotation. */
  lemma RotatedSelf(x: bv32)
    ensures Rotated(x) == x <==> x == 0 || x == 0xffffffff
  {
  }

  lemma MixZero(x: bv32, y: bv32)
    ensures Mix(x, y) == 0 <==> x == y
  {
  }

  lemma MixFour(p: bv32, q: bv32, a: bv32, b: bv32)
    ensures Mix(p, b) == Mix(q, a) <==> Mix(p, q) == Mix(a, b)
  {
    hide Mix;
    MixAssoc(p, b, Mix(q, a));
    MixAssoc(b, q, a);
    MixComm(b, q);
    MixAssoc(q, b, a);
    MixAssoc(p, q, Mix(b, a));
    MixComm(a, b);
    MixZero(Mix(p, b), Mix(q, a));
    MixZero(Mix(p, q), Mix(a, b));
  }

  /** Two blocks exchanged change the combined checksum, unless their own
      checksums are the same or each other's complement. */
  lemma ExchangeDetected(a: bv32, b: bv32)
    ensures CombineAll([a, b]) == CombineAll([b, a]) <==> Mix(a, b) == 0 || Mix(a, b) == 0xffffffff
  {
    hide Combine, Mix, Rotated;
    OneSum(a);
    OneSum(b);
    assert [a, b][..1] == [a] && [b, a][..1] == [b];
    CombineIsMix(a, b);
    CombineIsMix(b, a);
    MixFour(Rotated(a), Rotated(b), a, b);
    RotatedMix(a, b);
    RotatedSelf(Mix(a, b));
  }

  lemma OneSum(a: bv32)
    ensures CombineAll([a]) == a
  {
    assert [a][..0] == [];
    CombineIsMix(0, a);
    RotatedMix(0, 0);
    MixSelf(a);
  }
}
