/** The bit stream writer of compress.c (bsW, bsFinishWrite): a 32-bit buffer
    filled from the top, in front of a byte buffer. */
module BitWriter {
  import opened Arith
  import opened Bits
  import opened BlockImage

  ghost predicate Disjoint(a: nat, v: nat, s: nat, top: nat) {
    s <= top && a % Pow2(top) == 0 && v * Pow2(s) < Pow2(top)
  }

  /** `a | (v << s)` where a has no bits below its top, v << s none above it. */
  function OrShifted(a: nat, v: nat, s: nat, top: nat): (r: nat)
    requires Disjoint(a, v, s, top)
  {
    a + v * Pow2(s)
  }

  /** The topmost n bits of a 32-bit word. */
  function TopBits(word: nat, n: nat): (r: Bits)
    requires n <= 32
    ensures |r| == n
  {
    ToBits(Quotient(word, Pow2(32 - n)), n)
  }

  ghost predicate Aligned(word: nat, n: nat) {
    n <= 32 && word < Pow2(32) && word % Pow2(32 - n) == 0
  }

  lemma TopParts(word: nat, n: nat)
    requires Aligned(word, n)
    ensures word == word / Pow2(32 - n) * Pow2(32 - n) && word / Pow2(32 - n) < Pow2(n)
  {
    DivDef(word, Pow2(32 - n));
    Pow2Add(n, 32 - n);
    DivBelow(word, Pow2(32 - n), Pow2(n));
  }

  /** Shifting v in below the n bits already there. */
  lemma WriteWord(word: nat, n: nat, v: nat, k: nat)
    requires Aligned(word, n) && n + k <= 32 && v < Pow2(k)
    ensures Disjoint(word, v, 32 - n - k, 32 - n)
    ensures Aligned(OrShifted(word, v, 32 - n - k, 32 - n), n + k)
    ensures TopBits(OrShifted(word, v, 32 - n - k, 32 - n), n + k) == TopBits(word, n) + ToBits(v, k)
  {
    hide ToBits, Pow2;
    TopParts(word, n);
    var a, p, q := word / Pow2(32 - n), Pow2(k), Pow2(32 - n - k);
    Pow2Add(k, 32 - n - k);
    Scale(v, p, q);
    var w := word + v * q;
    Gather(a, p, q, v);
    assert w == (a * p + v) * q;
    Exactly(a * p + v, q);
    Pow2Add(n, k);
    Scale2(a, Pow2(n), p, v);
    Pow2Add(n + k, 32 - n - k);
    Scale(a * p + v, Pow2(n + k), q);
    ToBitsConcat(a, n, v, k);
  }

  lemma Scale(v: nat, p: nat, q: nat)
    requires v < p && q >= 1
    ensures v * q < p * q
  {
  }

  lemma Scale2(a: nat, m: nat, p: nat, v: nat)
    requires a < m && v < p
    ensures a * p + v < m * p
  {
    MulMono(a + 1, m, p);
    Distribute(a, 1, p);
  }

  lemma Gather(a: nat, p: nat, q: nat, v: nat)
    ensures a * (p * q) + v * q == (a * p + v) * q
  {
    Distribute(a * p, v, q);
    assert a * (p * q) == a * p * q;
  }

  lemma Exactly(v: nat, q: nat)
    requires q >= 1
    ensures v * q / q == v && v * q % q == 0
  {
    DivUnique(v * q, q, v, 0);
  }

  /** The top byte leaves: `bsBuff >> 24`, then `bsBuff <<= 8`. */
  lemma ShiftOut(word: nat, n: nat)
    requires Aligned(word, n) && n >= 8
    ensures word / 16777216 < 256 && Aligned(word * 256 % WORD, n - 8)
    ensures TopBits(word, n) == PutByte(word / 16777216) + TopBits(word * 256 % WORD, n - 8)
  {
    hide ToBits, Pow2;
    Powers();
    TopParts(word, n);
    var a, q := word / Pow2(32 - n), Pow2(32 - n);
    var m := n - 8;
    Pow2Add(8, m);
    DivDef(a, Pow2(m));
    var hi, lo := a / Pow2(m), a % Pow2(m);
    DivBelow(a, Pow2(m), 256);
    ToBitsConcat(hi, 8, lo, m);
    Pow2Add(m, 32 - n);
    // word == hi * 2^24 + lo * q
    Gather(hi, Pow2(m), q, lo);
    Scale(lo, Pow2(m), q);
    DivUnique(word, 16777216, hi, lo * q);
    Pow2Add(8, 32 - n);
    Gather2(hi, lo, q);
    DivUnique(word * 256, WORD, hi, lo * (256 * q));
    Exactly(lo, 256 * q);
  }

  lemma Gather2(hi: nat, lo: nat, q: nat)
    ensures (hi * 16777216 + lo * q) * 256 == hi * WORD + lo * (256 * q)
  {
    assert lo * q * 256 == lo * (256 * q);
  }

  lemma Powers()
    ensures Pow2(8) == 256 && Pow2(24) == 16777216 && Pow2(32) == WORD
  {
    Pow2Values();
    Pow2Add(16, 8);
    Pow2Add(16, 16);
  }

  lemma PutBytesSnoc(s: seq<nat>, c: nat)
    ensures PutBytes(s + [c]) == PutBytes(s) + PutByte(c)
  {
    hide PutByte;
    if s == [] {
      assert ([] + [c])[1..] == [];
    } else {
      assert (s + [c])[1..] == s[1..] + [c];
      PutBytesSnoc(s[1..], c);
    }
  }

  class BitStream {
    /** zbits[..numZ]. */
    var zbits: seq<Byte>
    var bsBuff: nat
    var bsLive: int

    ghost predicate Valid()
      reads this
    {
      0 <= bsLive <= 32 && Aligned(bsBuff, bsLive)
    }

    /** All bits written since zbits was last emptied, and those carried over. */
    ghost function Sent(): Bits
      reads this
      requires Valid()
    {
      PutBytes(zbits) + TopBits(bsBuff, bsLive)
    }

    /** BZ2_bsInitWrite on an empty buffer. */
    constructor ()
      ensures Valid() && Sent() == [] && zbits == []
    {
      zbits, bsBuff, bsLive := [], 0, 0;
      new;
      Powers();
      assert TopBits(bsBuff, 0) == [];
    }

    /** bsNEEDW: move whole bytes out. */
    method NeedW()
      requires Valid()
      modifies this
      ensures Valid() && Sent() == old(Sent()) && bsLive < 8
    {
      hide Aligned, TopBits, PutByte, PutBytes;
      while bsLive >= 8
        invariant Valid() && Sent() == old(Sent())
        decreases bsLive
      {
        ShiftOut(bsBuff, bsLive);
        PutBytesSnoc(zbits, bsBuff / 16777216);
        zbits := zbits + [bsBuff / 16777216];
        bsBuff := bsBuff * 256 % WORD;
        bsLive := bsLive - 8;
      }
    }

    /** bsW: the n low bits of v, highest first; bsLive stays below 32. */
    method W(n: nat, v: nat)
      requires Valid() && n <= 24 && v < Pow2(n)
      modifies this
      ensures Valid() && Sent() == old(Sent()) + ToBits(v, n) && bsLive < 32
    {
      hide Aligned, TopBits, PutByte, PutBytes, ToBits, OrShifted, Disjoint;
      NeedW();
      WriteWord(bsBuff, bsLive, v, n);
      AlignedSmall(bsBuff, bsLive);
      bsBuff := OrShifted(bsBuff, v, 32 - bsLive - n, 32 - bsLive);
      bsLive := bsLive + n;
    }

    /** bsFinishWrite: the last byte is filled up with zeros. */
    method FinishWrite() returns (ghost pad: nat)
      requires Valid()
      modifies this
      ensures -8 < bsLive <= 0 && pad < 8 && PutBytes(zbits) == old(Sent()) + Zeros(pad)
    {
      hide Aligned, TopBits, PutByte, PutBytes;
      ghost var sent := Sent();
      pad := 0;
      NoTopBits(bsBuff);
      while bsLive > 0
        invariant -8 < bsLive <= 32 && pad < 8
        invariant bsLive > 0 ==> Valid() && Sent() == sent && pad == 0
        invariant bsLive <= 0 ==> PutBytes(zbits) == sent + Zeros(pad)
        decreases bsLive
      {
        if bsLive < 8 {
          pad := 8 - bsLive;
          LastByte(bsBuff, bsLive);
        } else {
          ShiftOut(bsBuff, bsLive);
        }
        PutBytesSnoc(zbits, bsBuff / 16777216);
        NoTopBits(bsBuff * 256 % WORD);
        zbits := zbits + [bsBuff / 16777216];
        bsBuff := bsBuff * 256 % WORD;
        bsLive := bsLive - 8;
      }
    }

    /** bsPutUChar and bsPutUInt32. */
    method PutUChar(c: Byte)
      requires Valid()
      modifies this
      ensures Valid() && Sent() == old(Sent()) + PutByte(c)
    {
      Powers();
      W(8, c);
    }

    method PutUInt32(u: nat)
      requires Valid() && u < WORD
      modifies this
      ensures Valid() && Sent() == old(Sent()) + PutWord(u)
    {
      hide PutByte, TopBits, PutBytes;
      PutUChar(u / 16777216 % 256);
      PutUChar(u / 65536 % 256);
      PutUChar(u / 256 % 256);
      PutUChar(u % 256);
    }
  }

  lemma NoTopBits(word: nat)
    ensures TopBits(word, 0) == []
  {
  }

  lemma AlignedSmall(word: nat, n: nat)
    requires Aligned(word, n)
    ensures n <= 32
  {
  }

  lemma LastByte(word: nat, n: nat)
    requires Aligned(word, n) && 0 < n < 8
    ensures word / 16777216 < 256
    ensures PutByte(word / 16777216) == TopBits(word, n) + Zeros(8 - n)
  {
    hide ToBits, Pow2;
    Powers();
    TopParts(word, n);
    var a, q := word / Pow2(32 - n), Pow2(32 - n);
    Pow2Add(8 - n, 24);
    Gather(a, Pow2(8 - n), 16777216, 0);
    DivUnique(word, 16777216, a * Pow2(8 - n), 0);
    ToBitsConcat(a, n, 0, 8 - n);
    ZeroBits(8 - n);
    Pow2Add(n, 8 - n);
    Scale(a, Pow2(n), Pow2(8 - n));
  }

  lemma {:induction false} ZeroBits(n: nat)
    ensures ToBits(0, n) == Zeros(n)
  {
    if n > 0 {
      ZeroBits(n - 1);
    }
  }
}
