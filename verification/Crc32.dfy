/** crc32.c: the table-driven, sliced and combined CRC-32 against the
    bit-serial shift register (section 8 of RFC 1952). */
module Crc32 {

  const POLY: bv32 := 0xedb88320
  const ONES: bv32 := 0xffffffff

  // ---------- Words, one operation at a time ----------

  function Xor(a: bv32, b: bv32): bv32 { a ^ b }
  function Half(a: bv32): bv32 { a >> 1 }
  predicate Odd(a: bv32) { a & 1 == 1 }
  function Wide(b: bv8): bv32 { b as bv32 }
  function Low(c: bv32): bv8 { (c & 0xff) as bv8 }
  function Shr8(c: bv32): bv32 { c >> 8 }
  function Shl8(c: bv32): bv32 { c << 8 }
  function Shl1(c: bv32): bv32 { c << 1 }

  lemma XorAssoc(a: bv32, b: bv32, c: bv32) ensures Xor(Xor(a, b), c) == Xor(a, Xor(b, c)) {}
  lemma XorComm(a: bv32, b: bv32) ensures Xor(a, b) == Xor(b, a) {}
  lemma XorSelf(a: bv32) ensures Xor(a, a) == 0 && Xor(a, 0) == a && Xor(0, a) == a {}
  lemma XorHalf(a: bv32, b: bv32) ensures Half(Xor(a, b)) == Xor(Half(a), Half(b)) {}

  lemma XorCancel(p: bv32, a: bv32, b: bv32)
    ensures Xor(Xor(p, a), Xor(p, b)) == Xor(a, b)
  {
    hide Xor;
    XorComm(p, a);
    XorAssoc(a, p, Xor(p, b));
    XorAssoc(p, p, b);
    XorSelf(p);
    XorSelf(b);
  }

  lemma XorMiddle(p: bv32, a: bv32, b: bv32)
    ensures Xor(a, Xor(p, b)) == Xor(p, Xor(a, b))
  {
    hide Xor;
    XorAssoc(a, p, b);
    XorComm(a, p);
    XorAssoc(p, a, b);
  }

  lemma OddXor(a: bv32, b: bv32)
    ensures Odd(Xor(a, b)) <==> Odd(a) != Odd(b)
  {
    assert a & 1 == 0 || a & 1 == 1;
    assert b & 1 == 0 || b & 1 == 1;
    assert (a ^ b) & 1 == (a & 1) ^ (b & 1);
  }

  // ---------- The shift register ----------

  /** Multiply by x: shift, and add the polynomial if a one falls out. */
  function ShiftBit(c: bv32): bv32 {
    if Odd(c) then Xor(POLY, Half(c)) else Half(c)
  }

  /** Feed n zero bits. */
  function Zeros(c: bv32, n: nat): bv32 {
    if n == 0 then c else ShiftBit(Zeros(c, n - 1))
  }

  /** Feed one message bit. */
  function FeedBit(c: bv32, bit: bool): bv32 {
    ShiftBit(if bit then Xor(c, 1) else c)
  }

  function Bit(b: bv8, k: nat): bool {
    match k
    case 0 => b & 1 == 1
    case 1 => b & 2 == 2
    case 2 => b & 4 == 4
    case 3 => b & 8 == 8
    case 4 => b & 16 == 16
    case 5 => b & 32 == 32
    case 6 => b & 64 == 64
    case _ => b & 128 == 128
  }

  /** Feed the k low bits of a byte, lowest first. */
  function FeedBits(c: bv32, b: bv8, k: nat): bv32
    requires k <= 8
  {
    if k == 0 then c else FeedBit(FeedBits(c, b, k - 1), Bit(b, k - 1))
  }

  /** The register after a whole message: the definition of the checksum. */
  function Register(c: bv32, bytes: seq<bv8>): bv32 {
    if bytes == [] then c else FeedBits(Register(c, bytes[..|bytes| - 1]), bytes[|bytes| - 1], 8)
  }

  function Checksum(crc: bv32, bytes: seq<bv8>): bv32 {
    Xor(Register(Xor(crc, ONES), bytes), ONES)
  }

  // ---------- Linearity ----------

  lemma ShiftLinear(x: bv32, y: bv32)
    ensures ShiftBit(Xor(x, y)) == Xor(ShiftBit(x), ShiftBit(y))
  {
    hide Xor, Half, Odd;
    OddXor(x, y);
    XorHalf(x, y);
    XorCancel(POLY, Half(x), Half(y));
    XorAssoc(POLY, Half(x), Half(y));
    XorMiddle(POLY, Half(x), Half(y));
  }

  lemma {:induction false} ZerosLinear(x: bv32, y: bv32, n: nat)
    ensures Zeros(Xor(x, y), n) == Xor(Zeros(x, n), Zeros(y, n))
  {
    hide ShiftBit, Xor;
    if n > 0 {
      ZerosLinear(x, y, n - 1);
      ShiftLinear(Zeros(x, n - 1), Zeros(y, n - 1));
    }
  }

  lemma {:induction false} ZerosAdd(c: bv32, m: nat, n: nat)
    ensures Zeros(c, m + n) == Zeros(Zeros(c, m), n)
  {
    hide ShiftBit;
    if n > 0 {
      ZerosAdd(c, m, n - 1);
    }
  }

  lemma {:induction false} ZerosOfZero(n: nat)
    ensures Zeros(0, n) == 0
  {
    assert ShiftBit(0) == 0;
    if n > 0 {
      ZerosOfZero(n - 1);
    }
  }

  lemma LowBitsClear(c: bv32)
    requires c & 0xff == 0
    ensures !Odd(c) && !Odd(c >> 1) && !Odd(c >> 2) && !Odd(c >> 3)
    ensures !Odd(c >> 4) && !Odd(c >> 5) && !Odd(c >> 6) && !Odd(c >> 7)
  {
  }

  lemma ShiftAgain(c: bv32)
    ensures Half(c) == c >> 1 && Half(c >> 1) == c >> 2 && Half(c >> 2) == c >> 3 && Half(c >> 3) == c >> 4
    ensures Half(c >> 4) == c >> 5 && Half(c >> 5) == c >> 6 && Half(c >> 6) == c >> 7 && Half(c >> 7) == Shr8(c)
  {
  }

  /** Bits that do not reach the end are only shifted. */
  lemma ShiftOnly(c: bv32)
    requires c & 0xff == 0
    ensures Zeros(c, 8) == Shr8(c)
  {
    hide Odd, Half, Xor, Shr8;
    LowBitsClear(c);
    ShiftAgain(c);
    EightSteps(c, c >> 1, c >> 2, c >> 3, c >> 4, c >> 5, c >> 6, c >> 7, Shr8(c));
  }

  lemma EightSteps(c: bv32, c1: bv32, c2: bv32, c3: bv32, c4: bv32, c5: bv32, c6: bv32, c7: bv32, c8: bv32)
    requires !Odd(c) && !Odd(c1) && !Odd(c2) && !Odd(c3) && !Odd(c4) && !Odd(c5) && !Odd(c6) && !Odd(c7)
    requires Half(c) == c1 && Half(c1) == c2 && Half(c2) == c3 && Half(c3) == c4
    requires Half(c4) == c5 && Half(c5) == c6 && Half(c6) == c7 && Half(c7) == c8
    ensures Zeros(c, 8) == c8
  {
    hide Odd, Half, Xor;
    assert Zeros(c, 1) == c1;
    assert Zeros(c, 2) == c2;
    assert Zeros(c, 3) == c3;
    assert Zeros(c, 4) == c4;
    assert Zeros(c, 5) == c5;
    assert Zeros(c, 6) == c6;
    assert Zeros(c, 7) == c7;
  }

  // ---------- Bytes ----------

  lemma ShiftIsShift(x: bv32)
    ensures !Odd(x) ==> ShiftBit(x) == Half(x)
  {
  }

  /** The bits of b from k on, moved down. */
  function Rest(b: bv8, k: nat): bv32 {
    match k
    case 0 => b as bv32
    case 1 => (b >> 1) as bv32
    case 2 => (b >> 2) as bv32
    case 3 => (b >> 3) as bv32
    case 4 => (b >> 4) as bv32
    case 5 => (b >> 5) as bv32
    case 6 => (b >> 6) as bv32
    case 7 => (b >> 7) as bv32
    case _ => 0
  }

  /** Its lowest bit, and what remains. */
  lemma RestStep(b: bv8, k: nat)
    requires k < 8
    ensures Odd(Rest(b, k)) == Bit(b, k) && Half(Rest(b, k)) == Rest(b, k + 1)
  {
  }

  lemma DropOne(r: bv32)
    requires Odd(r)
    ensures !Odd(Xor(r, 1)) && Half(Xor(r, 1)) == Half(r)
  {
    DropOneRaw(r);
  }

  lemma DropOneRaw(r: bv32)
    requires r & 1 == 1
    ensures (r ^ 1) & 1 == 0 && (r ^ 1) >> 1 == r >> 1
  {
  }

  /** Feeding a bit while the rest of the byte is already mixed in. */
  lemma FeedMixed(f: bv32, r: bv32)
    ensures ShiftBit(Xor(f, r)) == Xor(FeedBit(f, Odd(r)), Half(r))
  {
    hide Xor, Odd, Half, ShiftBit;
    if Odd(r) {
      var even := Xor(r, 1);
      DropOne(r);
      XorAssoc(f, 1, even);
      XorAssoc(r, 1, 1);
      XorSelf(1);
      XorSelf(r);
      XorComm(1, even);
      XorAssoc(even, 1, 1);
      assert Xor(Xor(f, 1), even) == Xor(f, r) by {
        XorComm(r, 1);
        XorAssoc(1, 1, r);
      }
      ShiftLinear(Xor(f, 1), even);
      ShiftIsShift(even);
    } else {
      ShiftLinear(f, r);
      ShiftIsShift(r);
    }
  }

  lemma {:induction false} FeedBitsMixed(c: bv32, b: bv8, k: nat)
    requires k <= 8
    ensures Zeros(Xor(c, Wide(b)), k) == Xor(FeedBits(c, b, k), Rest(b, k))
  {
    hide Xor, Odd, Half, ShiftBit, FeedBit, Rest, Bit, Wide;
    if k == 0 {
      RestStart(b);
    } else {
      FeedBitsMixed(c, b, k - 1);
      RestStep(b, k - 1);
      FeedMixed(FeedBits(c, b, k - 1), Rest(b, k - 1));
    }
  }

  lemma RestStart(b: bv8)
    ensures Rest(b, 0) == Wide(b) && Rest(b, 8) == 0
  {
  }

  /** Eight message bits one by one are a byte mixed in and eight zeros. */
  lemma ByteAtOnce(c: bv32, b: bv8)
    ensures FeedBits(c, b, 8) == Zeros(Xor(c, Wide(b)), 8)
  {
    hide Xor, FeedBits, Zeros, Rest, Wide;
    FeedBitsMixed(c, b, 8);
    RestStart(b);
    XorSelf(FeedBits(c, b, 8));
  }

  lemma SplitByte(c: bv32)
    ensures c == Xor(Wide(Low(c)), c & 0xffffff00) && (c & 0xffffff00) & 0xff == 0 && Shr8(c & 0xffffff00) == Shr8(c)
  {
    SplitRaw(c);
  }

  lemma SplitRaw(c: bv32)
    ensures c == ((c & 0xff) as bv8) as bv32 ^ (c & 0xffffff00) && (c & 0xffffff00) >> 8 == c >> 8
    ensures (c & 0xffffff00) & 0xff == 0
  {
  }

  /** Only the low byte needs the table. */
  lemma TableStep(c: bv32)
    ensures Zeros(c, 8) == Xor(Zeros(Wide(Low(c)), 8), Shr8(c))
  {
    hide Xor, Zeros, Wide, Low, Shr8;
    SplitByte(c);
    ZerosLinear(Wide(Low(c)), c & 0xffffff00, 8);
    ShiftOnly(c & 0xffffff00);
  }

  // ---------- Tables ----------

  /** A table indexed by an unsigned char. */
  type Table = t: seq<bv32> | |t| == 256 witness seq(256, _ => 0)

  function At(t: Table, n: bv8): bv32 { t[n as int] }

  function Put(t: Table, n: bv8, c: bv32): Table { t[n as int := c] }

  lemma PutAt(t: Table, n: bv8, c: bv32, m: bv8)
    ensures At(Put(t, n, c), m) == if m == n then c else At(t, m)
  {
  }

  /** The register after byte n and k zero bytes. */
  ghost predicate HoldsTable(t: Table, k: nat) {
    forall n: bv8 :: At(t, n) == Zeros(Wide(n), 8 * (k + 1))
  }

  function SwapBytes(q: bv32): bv32 {
    ((q >> 24) & 0xff) + ((q >> 8) & 0xff00) + ((q & 0xff00) << 8) + ((q & 0xff) << 24)
  }

  ghost predicate HoldsSwapped(t: Table, k: nat) {
    forall n: bv8 :: At(t, n) == SwapBytes(Zeros(Wide(n), 8 * (k + 1)))
  }

  /** The polynomial, from its exponents. */
  lemma Polynomial()
    ensures ((1 as bv32) << 31) | (1 << 30) | (1 << 29) | (1 << 27) | (1 << 26) | (1 << 24) | (1 << 23) | (1 << 21)
          | (1 << 20) | (1 << 19) | (1 << 15) | (1 << 9) | (1 << 8) | (1 << 5) == POLY
  {
  }

  /** One entry: eight zeros after the byte. */
  method FirstEntry(n: bv8) returns (c: bv32)
    ensures c == Zeros(Wide(n), 8)
  {
    hide Xor, Half, Odd, Wide;
    c := Wide(n);
    for k := 0 to 8
      invariant c == Zeros(Wide(n), k)
    {
      c := if Odd(c) then Xor(POLY, Half(c)) else Half(c);
    }
  }

  predicate Below(m: bv8, n: bv16) { m as bv16 < n }

  /** The entries below n are there: swapped ones and plain ones. */
  ghost predicate Filled(t: Table, n: bv16, k: nat, swapped: bool) {
    forall m: bv8 :: Below(m, n) ==>
      At(t, m) == if swapped then SwapBytes(Zeros(Wide(m), 8 * (k + 1))) else Zeros(Wide(m), 8 * (k + 1))
  }

  lemma NextEntry(t: Table, n: bv16, k: nat, swapped: bool, c: bv32)
    requires n < 256 && Filled(t, n, k, swapped)
    requires c == if swapped then SwapBytes(Zeros(Wide(n as bv8), 8 * (k + 1))) else Zeros(Wide(n as bv8), 8 * (k + 1))
    ensures Filled(Put(t, n as bv8, c), n + 1, k, swapped)
  {
    hide Below, Zeros, SwapBytes, Wide, At, Put;
    var i := n as bv8;
    forall m: bv8 | Below(m, n + 1)
      ensures At(Put(t, i, c), m) == if swapped then SwapBytes(Zeros(Wide(m), 8 * (k + 1))) else Zeros(Wide(m), 8 * (k + 1))
    {
      BelowNext(m, n);
      PutAt(t, i, c, m);
    }
  }

  lemma BelowNext(m: bv8, n: bv16)
    requires n < 256 && Below(m, n + 1)
    ensures Below(m, n) || m == n as bv8
  {
  }

  lemma AllFilled(t: Table, k: nat)
    ensures Filled(t, 256, k, false) ==> HoldsTable(t, k)
    ensures Filled(t, 256, k, true) ==> HoldsSwapped(t, k)
  {
    hide Zeros, SwapBytes, Wide;
    forall m: bv8 ensures Below(m, 256) {
    }
  }

  lemma Count(n: bv16)
    requires n < 256
    ensures n < n + 1 <= 256 && 256 - (n + 1) < 256 - n
  {
  }

  /** make_crc_table: the first table. */
  method FirstTable() returns (t: Table)
    ensures HoldsTable(t, 0)
  {
    hide Zeros, Wide, Filled, At, Put;
    t := seq(256, _ => 0);
    var n: bv16 := 0;
    NothingFilled(t, 0, false);
    while n < 256
      invariant n <= 256 && Filled(t, n, 0, false)
      decreases 256 - n
    {
      var c := FirstEntry(n as bv8);
      NextEntry(t, n, 0, false, c);
      t := Put(t, n as bv8, c);
      Count(n);
      n := n + 1;
    }
    AllFilled(t, 0);
  }

  lemma NothingFilled(t: Table, k: nat, swapped: bool)
    ensures Filled(t, 0, k, swapped)
  {
  }

  /** One more zero byte, by the first table. */
  lemma EntryStep(t0: Table, c: bv32, n: bv8, k: nat)
    requires HoldsTable(t0, 0) && k > 0 && c == Zeros(Wide(n), 8 * k)
    ensures Xor(At(t0, Low(c)), Shr8(c)) == Zeros(Wide(n), 8 * (k + 1))
  {
    hide Xor, Shr8, Low, Wide, Zeros;
    TableStep(c);
    ZerosAdd(Wide(n), 8 * k, 8);
    assert 8 * k + 8 == 8 * (k + 1);
  }

  /** The tables for one, two and three zero bytes more, and the swapped ones. */
  method MoreTables(t0: Table) returns (t1: Table, t2: Table, t3: Table, t4: Table, t5: Table, t6: Table, t7: Table)
    requires HoldsTable(t0, 0)
    ensures HoldsTable(t1, 1) && HoldsTable(t2, 2) && HoldsTable(t3, 3)
    ensures HoldsSwapped(t4, 0) && HoldsSwapped(t5, 1) && HoldsSwapped(t6, 2) && HoldsSwapped(t7, 3)
  {
    hide Xor, Shr8, Low, Wide, Zeros, Filled, SwapBytes, At, Put;
    var t: Table := seq(256, _ => 0);
    t1, t2, t3, t4, t5, t6, t7 := t, t, t, t, t, t, t;
    var n: bv16 := 0;
    forall t: Table, k: nat, b: bool ensures Filled(t, 0, k, b) {
      NothingFilled(t, k, b);
    }
    while n < 256
      invariant n <= 256 && Filled(t1, n, 1, false) && Filled(t2, n, 2, false) && Filled(t3, n, 3, false)
      invariant Filled(t4, n, 0, true) && Filled(t5, n, 1, true) && Filled(t6, n, 2, true) && Filled(t7, n, 3, true)
      decreases 256 - n
    {
      var m := n as bv8;
      var c := At(t0, m);
      NextEntry(t4, n, 0, true, SwapBytes(c));
      t4 := Put(t4, m, SwapBytes(c));
      EntryStep(t0, c, m, 1);
      c := Xor(At(t0, Low(c)), Shr8(c));
      NextEntry(t1, n, 1, false, c);
      NextEntry(t5, n, 1, true, SwapBytes(c));
      t1, t5 := Put(t1, m, c), Put(t5, m, SwapBytes(c));
      EntryStep(t0, c, m, 2);
      c := Xor(At(t0, Low(c)), Shr8(c));
      NextEntry(t2, n, 2, false, c);
      NextEntry(t6, n, 2, true, SwapBytes(c));
      t2, t6 := Put(t2, m, c), Put(t6, m, SwapBytes(c));
      EntryStep(t0, c, m, 3);
      c := Xor(At(t0, Low(c)), Shr8(c));
      NextEntry(t3, n, 3, false, c);
      NextEntry(t7, n, 3, true, SwapBytes(c));
      t3, t7 := Put(t3, m, c), Put(t7, m, SwapBytes(c));
      Count(n);
      n := n + 1;
    }
    AllFilled(t1, 1);
    AllFilled(t2, 2);
    AllFilled(t3, 3);
    AllFilled(t4, 0);
    AllFilled(t5, 1);
    AllFilled(t6, 2);
    AllFilled(t7, 3);
  }

  // ---------- Byte by byte ----------

  /** The table step used on the little-endian register. */
  function Next(t0: Table, c: bv32, b: bv8): bv32 {
    Xor(At(t0, Low(Xor(c, Wide(b)))), Shr8(c))
  }

  lemma HighBytesStay(c: bv32, b: bv8)
    ensures Shr8(Xor(c, Wide(b))) == Shr8(c)
  {
    HighRaw(c, b);
  }

  lemma HighRaw(c: bv32, b: bv8)
    ensures (c ^ (b as bv32)) >> 8 == c >> 8
  {
  }

  lemma NextIsByte(t0: Table, c: bv32, b: bv8)
    requires HoldsTable(t0, 0)
    ensures Next(t0, c, b) == FeedBits(c, b, 8) == Zeros(Xor(c, Wide(b)), 8)
  {
    hide Xor, Shr8, Low, Wide, Zeros, At, FeedBits;
    TableStep(Xor(c, Wide(b)));
    HighBytesStay(c, b);
    ByteAtOnce(c, b);
  }

  lemma RegisterSnoc(c: bv32, bytes: seq<bv8>, b: bv8)
    ensures Register(c, bytes + [b]) == FeedBits(Register(c, bytes), b, 8)
  {
    assert (bytes + [b])[..|bytes|] == bytes;
  }

  lemma {:induction false} RegisterConcat(c: bv32, a: seq<bv8>, b: seq<bv8>)
    ensures Register(c, a + b) == Register(Register(c, a), b)
    decreases |b|
  {
    hide FeedBits;
    if b == [] {
      assert a + b == a;
    } else {
      var n := |b| - 1;
      assert b == b[..n] + [b[n]] && a + b == a + b[..n] + [b[n]];
      RegisterConcat(c, a, b[..n]);
      RegisterSnoc(c, a + b[..n], b[n]);
      RegisterSnoc(Register(c, a), b[..n], b[n]);
    }
  }

  /** Some bytes of a buffer, one at a time. */
  method FeedSome(t0: Table, c0: bv32, buf: seq<bv8>, at: nat, n: nat, ghost start: bv32) returns (c: bv32)
    requires HoldsTable(t0, 0) && at + n <= |buf| && c0 == Register(start, buf[..at])
    ensures c == Register(start, buf[..at + n])
  {
    hide FeedBits, HoldsTable, Next;
    c := c0;
    for i := 0 to n
      invariant c == Register(start, buf[..at + i])
    {
      assert buf[..at + i + 1] == buf[..at + i] + [buf[at + i]];
      RegisterSnoc(start, buf[..at + i], buf[at + i]);
      NextIsByte(t0, c, buf[at + i]);
      c := Next(t0, c, buf[at + i]);
    }
  }

  /** crc32 without BYFOUR: eight bytes at a time, then the rest. */
  method Crc32Bytewise(t0: Table, crc: bv32, buf: seq<bv8>) returns (r: bv32)
    requires HoldsTable(t0, 0)
    ensures r == Checksum(crc, buf)
  {
    hide HoldsTable, Register, Xor;
    var c := Xor(crc, ONES);
    ghost var start := c;
    var at, len := 0, |buf|;
    assert buf[..0] == [] && buf[..|buf|] == buf;
    NothingFed(start);
    while len >= 8
      invariant 0 <= at <= |buf| && at + len == |buf| && c == Register(start, buf[..at])
    {
      c := FeedSome(t0, c, buf, at, 8, start);
      at := at + 8;
      len := len - 8;
    }
    c := FeedSome(t0, c, buf, at, len, start);
    r := Xor(c, ONES);
  }

  lemma NothingFed(c: bv32)
    ensures Register(c, []) == c
  {
  }

  // ---------- Four bytes at once ----------

  /** A little-endian load of four bytes. */
  function Load(b0: bv8, b1: bv8, b2: bv8, b3: bv8): bv32 {
    (b0 as bv32) | ((b1 as bv32) << 8) | ((b2 as bv32) << 16) | ((b3 as bv32) << 24)
  }

  /** DOLIT4 once the word is mixed in. */
  function Slice(t0: Table, t1: Table, t2: Table, t3: Table, c: bv32): bv32 {
    Xor(Xor(At(t3, Low(c)), At(t2, Low(Shr8(c)))), Xor(At(t1, Low(Shr8(Shr8(c)))), At(t0, Low(Shr8(Shr8(Shr8(c)))))))
  }

  /** One byte off the end of the register: only its table entry is mixed. */
  lemma Peel(c: bv32, n: nat)
    ensures Zeros(c, 8 + n) == Xor(Zeros(Wide(Low(c)), 8 + n), Zeros(Shr8(c), n))
  {
    hide Xor, Wide, Low, Shr8, Zeros;
    TableStep(c);
    ZerosAdd(c, 8, n);
    ZerosAdd(Wide(Low(c)), 8, n);
    ZerosLinear(Zeros(Wide(Low(c)), 8), Shr8(c), n);
  }

  lemma TopByte(c: bv32)
    ensures Wide(Low(Shr8(Shr8(Shr8(c))))) == Shr8(Shr8(Shr8(c)))
  {
    TopByteRaw(c);
  }

  lemma TopByteRaw(c: bv32)
    ensures (((((c >> 8) >> 8) >> 8) & 0xff) as bv8) as bv32 == ((c >> 8) >> 8) >> 8
  {
  }

  /** Four table entries are 32 steps of the register. */
  lemma SliceIsZeros(t0: Table, t1: Table, t2: Table, t3: Table, c: bv32)
    requires HoldsTable(t0, 0) && HoldsTable(t1, 1) && HoldsTable(t2, 2) && HoldsTable(t3, 3)
    ensures Slice(t0, t1, t2, t3, c) == Zeros(c, 32)
  {
    hide Xor, Wide, Low, Shr8, Zeros, At;
    var c1 := Shr8(c);
    var c2 := Shr8(c1);
    var c3 := Shr8(c2);
    Peel(c, 24);
    Peel(c1, 16);
    Peel(c2, 8);
    TopByte(c);
    var x3, x2, x1, x0 := At(t3, Low(c)), At(t2, Low(c1)), At(t1, Low(c2)), At(t0, Low(c3));
    XorAssoc(x3, x2, Xor(x1, x0));
  }

  /** Bytes still on their way behind the one being fed. */
  lemma Push(c: bv32, b: bv8, r: bv32)
    requires Shr8(Shl8(r)) == r
    ensures Zeros(Xor(c, Xor(Wide(b), Shl8(r))), 8) == Xor(FeedBits(c, b, 8), r)
  {
    hide Xor, Wide, Shr8, Shl8, Zeros, FeedBits;
    XorAssoc(c, Wide(b), Shl8(r));
    ZerosLinear(Xor(c, Wide(b)), Shl8(r), 8);
    ShlClears(r);
    ShiftOnly(Shl8(r));
    ByteAtOnce(c, b);
  }

  lemma ShlClears(r: bv32)
    ensures Shl8(r) & 0xff == 0
  {
  }

  /** The word as nested bytes. */
  lemma LoadNested(b0: bv8, b1: bv8, b2: bv8, b3: bv8)
    ensures var r3 := Wide(b3);
            var r2 := Xor(Wide(b2), Shl8(r3));
            var r1 := Xor(Wide(b1), Shl8(r2));
            && Load(b0, b1, b2, b3) == Xor(Wide(b0), Shl8(r1))
            && Shr8(Shl8(r1)) == r1 && Shr8(Shl8(r2)) == r2 && Shr8(Shl8(r3)) == r3
  {
    LoadRaw(b0, b1, b2, b3);
  }

  lemma LoadRaw(b0: bv8, b1: bv8, b2: bv8, b3: bv8)
    ensures (b0 as bv32) | ((b1 as bv32) << 8) | ((b2 as bv32) << 16) | ((b3 as bv32) << 24)
         == (b0 as bv32) ^ (((b1 as bv32) ^ (((b2 as bv32) ^ ((b3 as bv32) << 8)) << 8)) << 8)
    ensures (((b1 as bv32) ^ (((b2 as bv32) ^ ((b3 as bv32) << 8)) << 8)) << 8) >> 8 == (b1 as bv32) ^ (((b2 as bv32) ^ ((b3 as bv32) << 8)) << 8)
    ensures (((b2 as bv32) ^ ((b3 as bv32) << 8)) << 8) >> 8 == (b2 as bv32) ^ ((b3 as bv32) << 8)
    ensures ((b3 as bv32) << 8) >> 8 == b3 as bv32
  {
  }

  /** 32 steps with a word mixed in feed its four bytes. */
  lemma WordAtOnce(c: bv32, b0: bv8, b1: bv8, b2: bv8, b3: bv8)
    ensures Zeros(Xor(c, Load(b0, b1, b2, b3)), 32)
         == FeedBits(FeedBits(FeedBits(FeedBits(c, b0, 8), b1, 8), b2, 8), b3, 8)
  {
    hide Xor, Wide, Shr8, Shl8, Zeros, FeedBits, Load;
    var r3 := Wide(b3);
    var r2 := Xor(Wide(b2), Shl8(r3));
    var r1 := Xor(Wide(b1), Shl8(r2));
    LoadNested(b0, b1, b2, b3);
    var x := Xor(c, Load(b0, b1, b2, b3));
    var f0 := FeedBits(c, b0, 8);
    var f1 := FeedBits(f0, b1, 8);
    var f2 := FeedBits(f1, b2, 8);
    ZerosAdd(x, 8, 24);
    ZerosAdd(Zeros(x, 8), 8, 16);
    ZerosAdd(Zeros(Zeros(x, 8), 8), 8, 8);
    Push(c, b0, r1);
    Push(f0, b1, r2);
    Push(f1, b2, r3);
    ByteAtOnce(f2, b3);
  }

  lemma FourMore(start: bv32, buf: seq<bv8>, at: nat)
    requires at + 4 <= |buf|
    ensures Zeros(Xor(Register(start, buf[..at]), Load(buf[at], buf[at + 1], buf[at + 2], buf[at + 3])), 32)
         == Register(start, buf[..at + 4])
  {
    hide Xor, Zeros, FeedBits, Load;
    var c := Register(start, buf[..at]);
    WordAtOnce(c, buf[at], buf[at + 1], buf[at + 2], buf[at + 3]);
    assert buf[..at + 1] == buf[..at] + [buf[at]];
    assert buf[..at + 2] == buf[..at + 1] + [buf[at + 1]];
    assert buf[..at + 3] == buf[..at + 2] + [buf[at + 2]];
    assert buf[..at + 4] == buf[..at + 3] + [buf[at + 3]];
    RegisterSnoc(start, buf[..at], buf[at]);
    RegisterSnoc(start, buf[..at + 1], buf[at + 1]);
    RegisterSnoc(start, buf[..at + 2], buf[at + 2]);
    RegisterSnoc(start, buf[..at + 3], buf[at + 3]);
  }

  /** n words: DOLIT4, or DOLIT32 for n == 8. */
  method FeedWords(t0: Table, t1: Table, t2: Table, t3: Table, c0: bv32, buf: seq<bv8>, at: nat, n: nat, ghost start: bv32)
    returns (c: bv32)
    requires HoldsTable(t0, 0) && HoldsTable(t1, 1) && HoldsTable(t2, 2) && HoldsTable(t3, 3)
    requires at + 4 * n <= |buf| && c0 == Register(start, buf[..at])
    ensures c == Register(start, buf[..at + 4 * n])
  {
    hide HoldsTable, Register, Xor, Load, Slice, Zeros;
    c := c0;
    for i := 0 to n
      invariant c == Register(start, buf[..at + 4 * i])
    {
      var p := at + 4 * i;
      FourMore(start, buf, p);
      c := Xor(c, Load(buf[p], buf[p + 1], buf[p + 2], buf[p + 3]));
      SliceIsZeros(t0, t1, t2, t3, c);
      c := Slice(t0, t1, t2, t3, c);
    }
  }

  /** crc32_little, for a buffer whose address leaves the given remainder. */
  method Crc32Little(t0: Table, t1: Table, t2: Table, t3: Table, crc: bv32, buf: seq<bv8>, address: nat) returns (r: bv32)
    requires HoldsTable(t0, 0) && HoldsTable(t1, 1) && HoldsTable(t2, 2) && HoldsTable(t3, 3)
    ensures r == Checksum(crc, buf)
  {
    hide HoldsTable, Register, Xor;
    var c := Xor(crc, ONES);
    ghost var start := c;
    var at, len := 0, |buf|;
    assert buf[..0] == [] && buf[..|buf|] == buf;
    NothingFed(start);
    while len > 0 && (address + at) % 4 != 0
      invariant 0 <= at <= |buf| && at + len == |buf| && c == Register(start, buf[..at])
    {
      c := FeedSome(t0, c, buf, at, 1, start);
      at := at + 1;
      len := len - 1;
    }
    while len >= 32
      invariant 0 <= at <= |buf| && at + len == |buf| && c == Register(start, buf[..at])
    {
      c := FeedWords(t0, t1, t2, t3, c, buf, at, 8, start);
      at := at + 32;
      len := len - 32;
    }
    while len >= 4
      invariant 0 <= at <= |buf| && at + len == |buf| && c == Register(start, buf[..at])
    {
      c := FeedWords(t0, t1, t2, t3, c, buf, at, 1, start);
      at := at + 4;
      len := len - 4;
    }
    c := FeedSome(t0, c, buf, at, len, start);
    r := Xor(c, ONES);
  }

  // ---------- The byte-swapped register ----------

  lemma SwapSwap(q: bv32)
    ensures SwapBytes(SwapBytes(q)) == q
  {
  }

  lemma SwapXor(a: bv32, b: bv32)
    ensures SwapBytes(Xor(a, b)) == Xor(SwapBytes(a), SwapBytes(b))
  {
    SwapXorRaw(a, b);
  }

  lemma SwapXorRaw(a: bv32, b: bv32)
    ensures (((a ^ b) >> 24) & 0xff) + (((a ^ b) >> 8) & 0xff00) + (((a ^ b) & 0xff00) << 8) + (((a ^ b) & 0xff) << 24)
         == (((a >> 24) & 0xff) + ((a >> 8) & 0xff00) + ((a & 0xff00) << 8) + ((a & 0xff) << 24))
          ^ (((b >> 24) & 0xff) + ((b >> 8) & 0xff00) + ((b & 0xff00) << 8) + ((b & 0xff) << 24))
  {
  }

  function Top(c: bv32): bv8 { (c >> 24) as bv8 }
  function XorByte(a: bv8, b: bv8): bv8 { a ^ b }

  lemma SwapShift(c: bv32)
    ensures SwapBytes(Shl8(c)) == Shr8(SwapBytes(c)) && Shl8(c) == SwapBytes(Shr8(SwapBytes(c)))
  {
  }

  lemma SwapTop(c: bv32, b: bv8)
    ensures XorByte(Top(c), b) == Low(Xor(SwapBytes(c), Wide(b)))
  {
  }

  lemma SwapOnes()
    ensures SwapBytes(ONES) == ONES
  {
  }

  /** The byte step on the swapped register. */
  function NextSwapped(t4: Table, c: bv32, b: bv8): bv32 {
    Xor(At(t4, XorByte(Top(c), b)), Shl8(c))
  }

  lemma NextSwappedIsNext(t4: Table, c: bv32, b: bv8)
    requires HoldsSwapped(t4, 0)
    ensures SwapBytes(NextSwapped(t4, c, b)) == FeedBits(SwapBytes(c), b, 8)
  {
    hide Xor, SwapBytes, Shl8, Shr8, Low, Wide, At, Zeros, FeedBits, XorByte, Top;
    var s := SwapBytes(c);
    var x := Xor(s, Wide(b));
    SwapTop(c, b);
    SwapShift(c);
    SwapXor(SwapBytes(Zeros(Wide(Low(x)), 8)), Shl8(c));
    SwapSwap(Zeros(Wide(Low(x)), 8));
    TableStep(x);
    HighBytesStay(s, b);
    ByteAtOnce(s, b);
  }

  /** DOBIG4 once the word is mixed in. */
  function SliceSwapped(t4: Table, t5: Table, t6: Table, t7: Table, c: bv32): bv32 {
    Xor(Xor(At(t4, Low(c)), At(t5, Low(Shr8(c)))), Xor(At(t6, Low(Shr8(Shr8(c)))), At(t7, Low(Shr8(Shr8(Shr8(c)))))))
  }

  lemma SwappedBytes(c: bv32)
    ensures Low(c) == Low(Shr8(Shr8(Shr8(SwapBytes(c))))) && Low(Shr8(c)) == Low(Shr8(Shr8(SwapBytes(c))))
    ensures Low(Shr8(Shr8(c))) == Low(Shr8(SwapBytes(c))) && Low(Shr8(Shr8(Shr8(c)))) == Low(SwapBytes(c))
  {
  }

  lemma SwapFour(a: bv32, b: bv32, c: bv32, d: bv32)
    ensures SwapBytes(Xor(Xor(SwapBytes(a), SwapBytes(b)), Xor(SwapBytes(c), SwapBytes(d)))) == Xor(Xor(d, c), Xor(b, a))
  {
    hide Xor, SwapBytes;
    SwapXor(Xor(SwapBytes(a), SwapBytes(b)), Xor(SwapBytes(c), SwapBytes(d)));
    SwapXor(SwapBytes(a), SwapBytes(b));
    SwapXor(SwapBytes(c), SwapBytes(d));
    SwapSwap(a);
    SwapSwap(b);
    SwapSwap(c);
    SwapSwap(d);
    XorComm(Xor(a, b), Xor(c, d));
    XorComm(a, b);
    XorComm(c, d);
  }

  lemma SliceSwappedIsZeros(t4: Table, t5: Table, t6: Table, t7: Table, c: bv32)
    requires HoldsSwapped(t4, 0) && HoldsSwapped(t5, 1) && HoldsSwapped(t6, 2) && HoldsSwapped(t7, 3)
    ensures SwapBytes(SliceSwapped(t4, t5, t6, t7, c)) == Zeros(SwapBytes(c), 32)
  {
    hide Xor, Wide, Low, Shr8, Zeros, At, SwapBytes;
    var s := SwapBytes(c);
    var s1 := Shr8(s);
    var s2 := Shr8(s1);
    var s3 := Shr8(s2);
    SwappedBytes(c);
    Peel(s, 24);
    Peel(s1, 16);
    Peel(s2, 8);
    TopByte(s);
    var z3, z2, z1, z0 := Zeros(Wide(Low(s)), 32), Zeros(Wide(Low(s1)), 24), Zeros(Wide(Low(s2)), 16), Zeros(Wide(Low(s3)), 8);
    SwapFour(z0, z1, z2, z3);
    XorAssoc(z3, z2, Xor(z1, z0));
  }

  method FeedSomeSwapped(t4: Table, c0: bv32, buf: seq<bv8>, at: nat, n: nat, ghost start: bv32) returns (c: bv32)
    requires HoldsSwapped(t4, 0) && at + n <= |buf| && SwapBytes(c0) == Register(start, buf[..at])
    ensures SwapBytes(c) == Register(start, buf[..at + n])
  {
    hide FeedBits, HoldsSwapped, NextSwapped, SwapBytes;
    c := c0;
    for i := 0 to n
      invariant SwapBytes(c) == Register(start, buf[..at + i])
    {
      assert buf[..at + i + 1] == buf[..at + i] + [buf[at + i]];
      RegisterSnoc(start, buf[..at + i], buf[at + i]);
      NextSwappedIsNext(t4, c, buf[at + i]);
      c := NextSwapped(t4, c, buf[at + i]);
    }
  }

  /** n words loaded big-endian: DOBIG4 and DOBIG32. */
  method FeedWordsSwapped(t4: Table, t5: Table, t6: Table, t7: Table, c0: bv32, buf: seq<bv8>, at: nat, n: nat, ghost start: bv32)
    returns (c: bv32)
    requires HoldsSwapped(t4, 0) && HoldsSwapped(t5, 1) && HoldsSwapped(t6, 2) && HoldsSwapped(t7, 3)
    requires at + 4 * n <= |buf| && SwapBytes(c0) == Register(start, buf[..at])
    ensures SwapBytes(c) == Register(start, buf[..at + 4 * n])
  {
    hide HoldsSwapped, Register, Xor, Load, SliceSwapped, Zeros, SwapBytes;
    c := c0;
    for i := 0 to n
      invariant SwapBytes(c) == Register(start, buf[..at + 4 * i])
    {
      var p := at + 4 * i;
      FourMore(start, buf, p);
      BigLoad(buf[p], buf[p + 1], buf[p + 2], buf[p + 3]);
      SwapXor(c, Load(buf[p + 3], buf[p + 2], buf[p + 1], buf[p]));
      c := Xor(c, Load(buf[p + 3], buf[p + 2], buf[p + 1], buf[p]));
      SliceSwappedIsZeros(t4, t5, t6, t7, c);
      c := SliceSwapped(t4, t5, t6, t7, c);
    }
  }

  /** A big-endian load is the swapped little-endian one. */
  lemma BigLoad(b0: bv8, b1: bv8, b2: bv8, b3: bv8)
    ensures SwapBytes(Load(b3, b2, b1, b0)) == Load(b0, b1, b2, b3)
  {
  }

  /** crc32_big. */
  method Crc32Big(t4: Table, t5: Table, t6: Table, t7: Table, crc: bv32, buf: seq<bv8>, address: nat) returns (r: bv32)
    requires HoldsSwapped(t4, 0) && HoldsSwapped(t5, 1) && HoldsSwapped(t6, 2) && HoldsSwapped(t7, 3)
    ensures r == Checksum(crc, buf)
  {
    hide HoldsSwapped, Register, Xor, SwapBytes;
    var c := SwapBytes(crc);
    SwapXor(c, ONES);
    SwapSwap(crc);
    SwapOnes();
    c := Xor(c, ONES);
    ghost var start := Xor(crc, ONES);
    var at, len := 0, |buf|;
    assert buf[..0] == [] && buf[..|buf|] == buf;
    NothingFed(start);
    while len > 0 && (address + at) % 4 != 0
      invariant 0 <= at <= |buf| && at + len == |buf| && SwapBytes(c) == Register(start, buf[..at])
    {
      c := FeedSomeSwapped(t4, c, buf, at, 1, start);
      at := at + 1;
      len := len - 1;
    }
    while len >= 32
      invariant 0 <= at <= |buf| && at + len == |buf| && SwapBytes(c) == Register(start, buf[..at])
    {
      c := FeedWordsSwapped(t4, t5, t6, t7, c, buf, at, 8, start);
      at := at + 32;
      len := len - 32;
    }
    while len >= 4
      invariant 0 <= at <= |buf| && at + len == |buf| && SwapBytes(c) == Register(start, buf[..at])
    {
      c := FeedWordsSwapped(t4, t5, t6, t7, c, buf, at, 1, start);
      at := at + 4;
      len := len - 4;
    }
    c := FeedSomeSwapped(t4, c, buf, at, len, start);
    SwapXor(c, ONES);
    c := Xor(c, ONES);
    r := SwapBytes(c);
  }

  /** crc32 on a machine of either byte order, and without slicing: one result
      for every buffer, length and alignment. */
  method AnyPath(crc: bv32, buf: seq<bv8>, address: nat, sliced: bool, bigEndian: bool) returns (r: bv32)
    ensures r == Checksum(crc, buf)
  {
    hide HoldsTable, HoldsSwapped, Checksum;
    var t0 := FirstTable();
    if !sliced {
      r := Crc32Bytewise(t0, crc, buf);
      return;
    }
    var t1, t2, t3, t4, t5, t6, t7 := MoreTables(t0);
    if bigEndian {
      r := Crc32Big(t4, t5, t6, t7, crc, buf, address);
    } else {
      r := Crc32Little(t0, t1, t2, t3, crc, buf, address);
    }
  }
}
