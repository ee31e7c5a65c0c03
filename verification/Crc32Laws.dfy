/** What crc32 is for: the residue of a message with its checksum, the errors
    it detects, and the values everyone agrees on. */
module Crc32Laws {
  import opened Crc32

  /** A word as gzip stores it: the low byte first. */
  function LowFirst(w: bv32): seq<bv8> {
    [Low(w), Low(Shr8(w)), Low(Shr8(Shr8(w))), Low(Shr8(Shr8(Shr8(w))))]
  }

  lemma LoadLowFirst(w: bv32)
    ensures Load(Low(w), Low(Shr8(w)), Low(Shr8(Shr8(w))), Low(Shr8(Shr8(Shr8(w))))) == w
  {
    BytesRaw(w);
    NarrowLow(w & 0xff);
    NarrowLow((w >> 8) & 0xff);
    NarrowLow((w >> 16) & 0xff);
    NarrowLow((w >> 24) & 0xff);
  }

  lemma BytesRaw(w: bv32)
    ensures (w & 0xff) | (((w >> 8) & 0xff) << 8) | (((w >> 16) & 0xff) << 16) | (((w >> 24) & 0xff) << 24) == w
    ensures (w >> 8) >> 8 == w >> 16 && (w >> 16) >> 8 == w >> 24
  {
  }

  lemma NarrowLow(x: bv32)
    requires x <= 0xff
    ensures (x as bv8) as bv32 == x
  {
  }

  /** Four more bytes are 32 steps from the register xored with their word. */
  lemma RegisterWord(c: bv32, m: seq<bv8>, w: bv32)
    ensures Register(c, m + LowFirst(w)) == Zeros(Xor(Register(c, m), w), 32)
  {
    hide FeedBits, Zeros, Xor, Load, Low, Shr8;
    var b := LowFirst(w);
    var r := Register(c, m);
    LoadLowFirst(w);
    WordAtOnce(r, b[0], b[1], b[2], b[3]);
    RegisterConcat(c, m, b);
    assert b[..3][..2] == [b[0], b[1]] && b[..3][..2][..1] == [b[0]] && b[..3][..2][..1][..0] == [];
    assert Register(r, []) == r;
    assert Register(r, b[..3][..2][..1]) == FeedBits(r, b[0], 8);
    assert Register(r, b[..3][..2]) == FeedBits(FeedBits(r, b[0], 8), b[1], 8);
    assert Register(r, b[..3]) == FeedBits(FeedBits(FeedBits(r, b[0], 8), b[1], 8), b[2], 8);
  }

  // ---------- The residue ----------

  lemma AllOnesOnward()
    ensures Zeros(ONES, 32) == 0xdebb20e3
  {
    assert Zeros(0xffffffff, 1) == 0x92477cdf;
    assert Zeros(0xffffffff, 2) == 0xa49b3d4f;
    assert Zeros(0xffffffff, 3) == 0xbff51d87;
    assert Zeros(0xffffffff, 4) == 0xb2420de3;
    assert Zeros(0xffffffff, 5) == 0xb49985d1;
    assert Zeros(0xffffffff, 6) == 0xb7f441c8;
    assert Zeros(0xffffffff, 7) == 0x5bfa20e4;
    assert Zeros(0xffffffff, 8) == 0x2dfd1072;
    assert Zeros(0xffffffff, 9) == 0x16fe8839;
    assert Zeros(0xffffffff, 10) == 0xe6c7c73c;
    assert Zeros(0xffffffff, 11) == 0x7363e39e;
    assert Zeros(0xffffffff, 12) == 0x39b1f1cf;
    assert Zeros(0xffffffff, 13) == 0xf1607bc7;
    assert Zeros(0xffffffff, 14) == 0x9508bec3;
    assert Zeros(0xffffffff, 15) == 0xa73cdc41;
    assert Zeros(0xffffffff, 16) == 0xbe26ed00;
    assert Zeros(0xffffffff, 17) == 0x5f137680;
    assert Zeros(0xffffffff, 18) == 0x2f89bb40;
    assert Zeros(0xffffffff, 19) == 0x17c4dda0;
    assert Zeros(0xffffffff, 20) == 0x0be26ed0;
    assert Zeros(0xffffffff, 21) == 0x05f13768;
    assert Zeros(0xffffffff, 22) == 0x02f89bb4;
    assert Zeros(0xffffffff, 23) == 0x017c4dda;
    assert Zeros(0xffffffff, 24) == 0x00be26ed;
    assert Zeros(0xffffffff, 25) == 0xede79056;
    assert Zeros(0xffffffff, 26) == 0x76f3c82b;
    assert Zeros(0xffffffff, 27) == 0xd6c16735;
    assert Zeros(0xffffffff, 28) == 0x86d830ba;
    assert Zeros(0xffffffff, 29) == 0x436c185d;
    assert Zeros(0xffffffff, 30) == 0xcc0e8f0e;
    assert Zeros(0xffffffff, 31) == 0x66074787;
    assert Zeros(0xffffffff, 32) == 0xdebb20e3;
  }

  lemma OwnComplement(r: bv32)
    ensures Xor(r, Xor(r, ONES)) == ONES
  {
  }

  /** A message followed by its own checksum, the low byte first, has the same
      checksum whatever the message, and whatever the value it started from. */
  lemma Residue(crc: bv32, m: seq<bv8>)
    ensures Checksum(crc, m + LowFirst(Checksum(crc, m))) == 0x2144df1c
  {
    hide Register, Zeros, LowFirst;
    var r := Register(Xor(crc, ONES), m);
    RegisterWord(Xor(crc, ONES), m, Xor(r, ONES));
    OwnComplement(r);
    AllOnesOnward();
  }

  // ---------- Known values ----------

  lemma KnownChecksums()
    ensures Checksum(0, []) == 0
    ensures Checksum(0, [0x00]) == 0xd202ef8d
    ensures Checksum(0, [0x61]) == 0xe8b7be43
  {
    hide Zeros;
    assert [0x00][..0] == [] && [0x61][..0] == [];
    assert Xor(0, ONES) == ONES && Xor(ONES, Wide(0x00)) == 0xffffffff && Xor(ONES, Wide(0x61)) == 0xffffff9e;
    ByteAtOnce(ONES, 0x00);
    ByteAtOnce(ONES, 0x61);
    KnownSteps();
    assert Register(ONES, []) == ONES;
    assert Register(ONES, [0x00]) == 0x2dfd1072;
    assert Register(ONES, [0x61]) == 0x174841bc;
  }

  lemma KnownSteps()
    ensures Zeros(0xffffffff, 8) == 0x2dfd1072 && Zeros(0xffffff9e, 8) == 0x174841bc
  {
    assert Zeros(0xffffffff, 1) == 0x92477cdf;
    assert Zeros(0xffffffff, 2) == 0xa49b3d4f;
    assert Zeros(0xffffffff, 3) == 0xbff51d87;
    assert Zeros(0xffffffff, 4) == 0xb2420de3;
    assert Zeros(0xffffffff, 5) == 0xb49985d1;
    assert Zeros(0xffffffff, 6) == 0xb7f441c8;
    assert Zeros(0xffffffff, 7) == 0x5bfa20e4;
    assert Zeros(0xffffffff, 8) == 0x2dfd1072;
    assert Zeros(0xffffff9e, 1) == 0x7fffffcf;
    assert Zeros(0xffffff9e, 2) == 0xd2477cc7;
    assert Zeros(0xffffff9e, 3) == 0x849b3d43;
    assert Zeros(0xffffff9e, 4) == 0xaff51d81;
    assert Zeros(0xffffff9e, 5) == 0xba420de0;
    assert Zeros(0xffffff9e, 6) == 0x5d2106f0;
    assert Zeros(0xffffff9e, 7) == 0x2e908378;
    assert Zeros(0xffffff9e, 8) == 0x174841bc;
  }

  // ---------- What the checksum detects ----------

  lemma ShiftLosesNothing(x: bv32)
    requires ShiftBit(x) == 0
    ensures x == 0
  {
  }

  lemma {:induction false} ZerosLoseNothing(x: bv32, n: nat)
    requires x != 0
    ensures Zeros(x, n) != 0
  {
    hide ShiftBit;
    if n > 0 {
      ZerosLoseNothing(x, n - 1);
      if ShiftBit(Zeros(x, n - 1)) == 0 { ShiftLosesNothing(Zeros(x, n - 1)); }
    }
  }

  lemma XorZero(x: bv32, y: bv32)
    ensures Xor(x, y) == 0 <==> x == y
  {
  }

  lemma {:induction false} StaysDifferent(c: bv32, c': bv32, m: seq<bv8>)
    requires c != c'
    ensures Register(c, m) != Register(c', m)
    decreases |m|
  {
    hide FeedBits, Xor, Zeros, Wide;
    if m != [] {
      var k := |m| - 1;
      var r, r', b := Register(c, m[..k]), Register(c', m[..k]), m[k];
      StaysDifferent(c, c', m[..k]);
      ByteAtOnce(r, b);
      ByteAtOnce(r', b);
      ZerosDiffer(r, r', Wide(b), 8);
    }
  }

  lemma ZerosDiffer(r: bv32, r': bv32, w: bv32, n: nat)
    requires r != r'
    ensures Zeros(Xor(r, w), n) != Zeros(Xor(r', w), n)
  {
    hide Xor, Zeros;
    ZerosLinear(Xor(r, w), Xor(r', w), n);
    XorComm(r, w);
    XorComm(r', w);
    XorCancel(w, r, r');
    XorZero(r, r');
    XorZero(Zeros(Xor(r, w), n), Zeros(Xor(r', w), n));
    ZerosLoseNothing(Xor(r, r'), n);
  }

  /** Damage confined to four bytes in a row always changes the checksum. */
  lemma BurstDetected(crc: bv32, before: seq<bv8>, w: bv32, w': bv32, after: seq<bv8>)
    requires w != w'
    ensures Checksum(crc, before + LowFirst(w) + after) != Checksum(crc, before + LowFirst(w') + after)
  {
    hide Register, Xor, Zeros, LowFirst;
    var c := Xor(crc, ONES);
    var r := Register(c, before);
    RegisterWord(c, before, w);
    RegisterWord(c, before, w');
    XorComm(r, w);
    XorComm(r, w');
    ZerosDiffer(w, w', r, 32);
    RegisterConcat(c, before + LowFirst(w), after);
    RegisterConcat(c, before + LowFirst(w'), after);
    StaysDifferent(Zeros(Xor(r, w), 32), Zeros(Xor(r, w'), 32), after);
    XorOnes(Register(c, before + LowFirst(w) + after), Register(c, before + LowFirst(w') + after));
  }

  lemma XorOnes(x: bv32, y: bv32)
    ensures Xor(x, ONES) == Xor(y, ONES) <==> x == y
  {
  }

  function ZeroBytes(n: nat): (s: seq<bv8>)
    ensures |s| == n && forall i :: 0 <= i < n ==> s[i] == 0
  {
    seq(n, _ => 0)
  }

  lemma {:induction false} ZeroBytesFed(c: bv32, n: nat)
    ensures Register(c, ZeroBytes(n)) == Zeros(c, 8 * n)
  {
    hide Zeros, FeedBits, Xor;
    if n == 0 {
      assert Zeros(c, 0) == c by { NoSteps(c); }
    } else {
      var r := Zeros(c, 8 * (n - 1));
      assert ZeroBytes(n)[..n - 1] == ZeroBytes(n - 1);
      ZeroBytesFed(c, n - 1);
      ByteAtOnce(r, 0);
      XorSelf(r);
      ZerosAdd(c, 8 * (n - 1), 8);
    }
  }

  lemma NoSteps(c: bv32)
    ensures Zeros(c, 0) == c
  {
  }

  lemma NoFixedPoint(c: bv32)
    requires c != 0
    ensures ShiftBit(ShiftBit(ShiftBit(ShiftBit(ShiftBit(ShiftBit(ShiftBit(ShiftBit(c)))))))) != c
  {
  }

  lemma EightShifts(c: bv32)
    ensures Zeros(c, 8) == ShiftBit(ShiftBit(ShiftBit(ShiftBit(ShiftBit(ShiftBit(ShiftBit(ShiftBit(c))))))))
  {
    hide ShiftBit;
    assert Zeros(c, 1) == ShiftBit(c);
    assert Zeros(c, 2) == ShiftBit(ShiftBit(c));
    assert Zeros(c, 4) == ShiftBit(ShiftBit(Zeros(c, 2)));
    assert Zeros(c, 6) == ShiftBit(ShiftBit(Zeros(c, 4)));
  }

  /** What the conditioning is for: one zero byte more or less shows, at every
      length, exactly if the register does not start out as zero. */
  lemma ZeroRunsTold(crc: bv32, n: nat)
    ensures Checksum(crc, ZeroBytes(n)) == Checksum(crc, ZeroBytes(n + 1)) <==> crc == 0xffffffff
  {
    hide Register, Zeros, Xor, ShiftBit, ZeroBytes;
    var c := Xor(crc, ONES);
    var r := Zeros(c, 8 * n);
    ZeroBytesFed(c, n);
    ZeroBytesFed(c, n + 1);
    ZerosAdd(c, 8 * n, 8);
    XorOnes(r, Zeros(r, 8));
    XorZero(crc, ONES);
    if c == 0 {
      ZerosOfZero(8 * n);
      ZerosOfZero(8);
    } else {
      ZerosLoseNothing(c, 8 * n);
      EightShifts(r);
      NoFixedPoint(r);
    }
  }
}
