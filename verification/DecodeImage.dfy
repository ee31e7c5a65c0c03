/** The decoder machine reads back what BlockImage says is sent. */
module DecodeImage {
  import opened Arith
  import opened Bits
  import opened CountingSort
  import opened Rotations
  import opened MoveToFront
  import opened GenerateMtf
  import opened CanonicalCode
  import opened BlockImage
  import opened DecoderMachine
  import CodeLengths

  /** Reading the bits s makes the machine go from one state to another. */
  ghost predicate Reaches(from: State, s: Bits, to: State) {
    forall rest: Bits :: Advance(from, s + rest) == Advance(to, rest)
  }

  lemma ReachNothing(s: State)
    ensures Reaches(s, [], s)
  {
    forall rest: Bits ensures Advance(s, [] + rest) == Advance(s, rest) {
      assert [] + rest == rest;
    }
  }

  lemma JoinBits(s: Bits, t: Bits, rest: Bits)
    ensures (s + t) + rest == s + (t + rest)
  {
  }

  lemma ReachThen(a: State, s: Bits, b: State, t: Bits, c: State)
    requires Reaches(a, s, b) && Reaches(b, t, c)
    ensures Reaches(a, s + t, c)
  {
    hide Advance;
    forall rest: Bits ensures Advance(a, (s + t) + rest) == Advance(c, rest) {
      JoinBits(s, t, rest);
    }
  }

  lemma FirstBits(a: Bits, rest: Bits)
    ensures (a + rest)[..|a|] == a && (a + rest)[|a|..] == rest
  {
  }

  lemma ReachBits(s: State, v: nat, n: nat)
    requires Reads(s) && Need(s) == n && v < Pow2(n)
    ensures Reaches(s, ToBits(v, n), Step(s, v))
  {
    hide Step;
    FromToBits(v, n);
    forall rest: Bits ensures Advance(s, ToBits(v, n) + rest) == Advance(Step(s, v), rest) {
      FirstBits(ToBits(v, n), rest);
    }
  }

  lemma ReachBit(s: State, b: bool)
    requires Reads(s) && Need(s) == 1
    ensures Reaches(s, [b], Step(s, if b then 1 else 0))
  {
    var v := if b then 1 else 0;
    assert Pow2(1) == 2;
    ReachBits(s, v, 1);
    assert ToBits(v, 1) == ToBits(0, 0) + [b] == [b];
  }

  lemma ReachByte(s: State, v: Byte)
    requires Reads(s) && Need(s) == 8
    ensures Reaches(s, PutByte(v), Step(s, v))
  {
    hide ToBits, Reaches, Step;
    Pow2Values();
    ReachBits(s, v, 8);
  }

  lemma ReachTwo(s: State, v: Byte, w: Byte)
    requires Reads(s) && Need(s) == 8 && Reads(Step(s, v)) && Need(Step(s, v)) == 8
    ensures Reaches(s, PutByte(v) + PutByte(w), Step(Step(s, v), w))
  {
    hide ToBits, Reaches, Step, PutByte, Need;
    ReachByte(s, v);
    ReachByte(Step(s, v), w);
    ReachThen(s, PutByte(v), Step(s, v), PutByte(w), Step(Step(s, v), w));
  }

  // ---------- Headers ----------

  lemma ReadStreamHeader(level: nat)
    requires 1 <= level <= 9
    ensures Reaches(Magic(1), StreamHeader(level), BlkHdr(level, 1))
  {
    hide Reaches, PutByte;
    ReachTwo(Magic(1), 0x42, 0x5A);
    ReachTwo(Magic(3), 0x68, 0x30 + level);
    ReachThen(Magic(1), PutByte(0x42) + PutByte(0x5A), Magic(3), PutByte(0x68) + PutByte(0x30 + level), BlkHdr(level, 1));
    FourBytes(0x42, 0x5A, 0x68, 0x30 + level);
  }

  lemma FourBytes(a: nat, b: nat, c: nat, d: nat)
    ensures PutBytes([a, b, c, d]) == (PutByte(a) + PutByte(b)) + (PutByte(c) + PutByte(d))
  {
    hide PutByte;
    assert [a, b, c, d][1..] == [b, c, d] && [b, c, d][1..] == [c, d] && [c, d][1..] == [d];
    assert PutBytes([d]) == PutByte(d);
    assert PutBytes([c, d]) == PutByte(c) + PutByte(d);
    assert PutBytes([b, c, d]) == PutByte(b) + (PutByte(c) + PutByte(d));
  }

  lemma SixBytes(a: nat, b: nat, c: nat, d: nat, e: nat, f: nat)
    ensures PutBytes([a, b, c, d, e, f]) == (PutByte(a) + PutByte(b)) + ((PutByte(c) + PutByte(d)) + (PutByte(e) + PutByte(f)))
  {
    hide PutByte;
    assert [a, b, c, d, e, f][1..] == [b, c, d, e, f] && [b, c, d, e, f][1..] == [c, d, e, f];
    FourBytes(c, d, e, f);
  }

  lemma ReadBlockMagic(level: nat)
    ensures Reaches(BlkHdr(level, 1), PutBytes(BLOCK_MAGIC), Bcrc(level, 1, 0))
  {
    hide Reaches, PutByte;
    var s1, s3, s5, s7 := BlkHdr(level, 1), BlkHdr(level, 3), BlkHdr(level, 5), Bcrc(level, 1, 0);
    ReachTwo(s1, 0x31, 0x41);
    ReachTwo(s3, 0x59, 0x26);
    ReachTwo(s5, 0x53, 0x59);
    ReachThen(s3, PutByte(0x59) + PutByte(0x26), s5, PutByte(0x53) + PutByte(0x59), s7);
    ReachThen(s1, PutByte(0x31) + PutByte(0x41), s3, (PutByte(0x59) + PutByte(0x26)) + (PutByte(0x53) + PutByte(0x59)), s7);
    SixBytes(0x31, 0x41, 0x59, 0x26, 0x53, 0x59);
  }

  lemma ReadEndMagic(level: nat)
    ensures Reaches(BlkHdr(level, 1), PutBytes(END_MAGIC), Ccrc(1, 0))
  {
    hide Reaches, PutByte;
    var s1, s3, s5, s7 := BlkHdr(level, 1), EndHdr(3), EndHdr(5), Ccrc(1, 0);
    ReachTwo(s1, 0x17, 0x72);
    ReachTwo(s3, 0x45, 0x38);
    ReachTwo(s5, 0x50, 0x90);
    ReachThen(s3, PutByte(0x45) + PutByte(0x38), s5, PutByte(0x50) + PutByte(0x90), s7);
    ReachThen(s1, PutByte(0x17) + PutByte(0x72), s3, (PutByte(0x45) + PutByte(0x38)) + (PutByte(0x50) + PutByte(0x90)), s7);
    SixBytes(0x17, 0x72, 0x45, 0x38, 0x50, 0x90);
  }

  /** Four bytes shifted together give the word back. */
  lemma WordFromBytes(u: nat) returns (a: nat, b: nat, c: nat, d: nat)
    requires u < 0x1_0000_0000
    ensures a < 256 && b < 256 && c < 256 && d < 256
    ensures ((a * 256 + b) * 256 + c) * 256 + d == u
    ensures PutWord(u) == (PutByte(a) + PutByte(b)) + (PutByte(c) + PutByte(d))
  {
    hide PutByte;
    var q1 := u / 256;
    var q2 := q1 / 256;
    assert u / 65536 == q2;
    assert u / 16777216 == q2 / 256;
    a, b, c, d := q2 / 256, q2 % 256, q1 % 256, u % 256;
  }

  lemma ReadBlockCrc(level: nat, u: nat)
    requires u < 0x1_0000_0000
    ensures Reaches(Bcrc(level, 1, 0), PutWord(u), RandBit(level, u))
  {
    hide Reaches, PutByte, PutWord;
    var a, b, c, d := WordFromBytes(u);
    ReachTwo(Bcrc(level, 1, 0), a, b);
    ReachTwo(Bcrc(level, 3, a * 256 + b), c, d);
    ReachThen(Bcrc(level, 1, 0), PutByte(a) + PutByte(b), Bcrc(level, 3, a * 256 + b), PutByte(c) + PutByte(d), RandBit(level, u));
  }

  lemma ReadCombinedCrc(u: nat)
    requires u < 0x1_0000_0000
    ensures Reaches(Ccrc(1, 0), PutWord(u), Stop(StreamEnd(u)))
  {
    hide Reaches, PutByte, PutWord;
    var a, b, c, d := WordFromBytes(u);
    ReachTwo(Ccrc(1, 0), a, b);
    ReachTwo(Ccrc(3, a * 256 + b), c, d);
    ReachThen(Ccrc(1, 0), PutByte(a) + PutByte(b), Ccrc(3, a * 256 + b), PutByte(c) + PutByte(d), Stop(StreamEnd(u)));
  }

  /** 24 bits written at once are three bytes read one by one. */
  lemma JoinBytes(a: Byte, b: Byte, c: Byte)
    ensures ToBits(a * 65536 + (b * 256 + c), 24) == PutByte(a) + (PutByte(b) + PutByte(c))
  {
    hide ToBits, FromBits, Pow2;
    Pow2Values();
    FromToBits(a, 8);
    FromToBits(b, 8);
    FromToBits(c, 8);
    FromBitsConcat(PutByte(b), PutByte(c));
    FromBitsConcat(PutByte(a), PutByte(b) + PutByte(c));
    ToFromBits(PutByte(a) + (PutByte(b) + PutByte(c)));
  }

  lemma ReadOrigPtr(level: nat, crc: nat, p: nat)
    requires p <= 10 + 100000 * level && level <= 9
    ensures Reaches(RandBit(level, crc), [false] + ToBits(p, 24), Mapping1(Head(level, crc, false, p), []))
  {
    hide Reaches, PutByte, ToBits;
    var h := Head(level, crc, false, 0);
    ReachBit(RandBit(level, crc), false);
    var z, a, b, c := WordFromBytes(p);
    var h1, h2 := h.(origPtr := a), h.(origPtr := a * 256 + b);
    var last := Mapping1(Head(level, crc, false, p), []);
    ReachByte(OrigPtr(h, 1), a);
    ReachTwo(OrigPtr(h1, 2), b, c);
    ReachThen(OrigPtr(h, 1), PutByte(a), OrigPtr(h1, 2), PutByte(b) + PutByte(c), last);
    JoinBytes(a, b, c);
    ReachThen(RandBit(level, crc), [false], OrigPtr(h, 1), ToBits(p, 24), last);
  }

  lemma ReadBlockHead(level: nat, crc: bv32, p: nat)
    requires p <= 10 + 100000 * level && level <= 9
    ensures Reaches(BlkHdr(level, 1), HeadBits(crc, p), Mapping1(Head(level, Word(crc), false, p), []))
  {
    hide Reaches, PutByte, PutBytes, ToBits, Word, PutWord;
    var u := Word(crc);
    var s0, s1, s2, s3 := BlkHdr(level, 1), Bcrc(level, 1, 0), RandBit(level, u), Mapping1(Head(level, u, false, p), []);
    ReadBlockMagic(level);
    ReadBlockCrc(level, u);
    ReadOrigPtr(level, u, p);
    ReachThen(s0, PutBytes(BLOCK_MAGIC), s1, PutWord(u), s2);
    ReachThen(s0, PutBytes(BLOCK_MAGIC) + PutWord(u), s2, [false] + ToBits(p, 24), s3);
    assert HeadBits(crc, p) == PutBytes(BLOCK_MAGIC) + PutWord(u) + ([false] + ToBits(p, 24));
  }

  lemma ReadTrailer(level: nat, combined: bv32)
    ensures Reaches(BlkHdr(level, 1), Trailer(combined), Stop(StreamEnd(Word(combined))))
  {
    hide Reaches, PutByte, PutBytes, ToBits, Word, PutWord;
    ReadEndMagic(level);
    ReadCombinedCrc(Word(combined));
    ReachThen(BlkHdr(level, 1), PutBytes(END_MAGIC), Ccrc(1, 0), PutWord(Word(combined)), Stop(StreamEnd(Word(combined))));
  }

  // ---------- The mapping table ----------

  function Heads(inUse: seq<bool>): (r: seq<bool>)
    requires |inUse| == 256
    ensures |r| == 16 && forall i :: 0 <= i < 16 ==> r[i] == RowUsed(inUse, i)
  {
    seq(16, i requires 0 <= i < 16 => RowUsed(inUse, i))
  }

  lemma {:induction false} ReadHead(h: Head, inUse: seq<bool>, i: nat)
    requires |inUse| == 256 && i < 16
    ensures Reaches(Mapping1(h, Heads(inUse)[..i]), HeadFrom(inUse, i), EnterRow(h, Heads(inUse), []))
    decreases 16 - i
  {
    hide Reaches, EnterRow, RowUsed;
    var s, b := Heads(inUse)[..i], RowUsed(inUse, i);
    ReachBit(Mapping1(h, s), b);
    assert s + [b] == Heads(inUse)[..i + 1];
    if i + 1 < 16 {
      ReadHead(h, inUse, i + 1);
      ReachThen(Mapping1(h, s), [b], Mapping1(h, s + [b]), HeadFrom(inUse, i + 1), EnterRow(h, Heads(inUse), []));
    } else {
      assert HeadFrom(inUse, i) == [b];
      assert s + [b] == Heads(inUse);
    }
  }

  lemma {:induction false} ReadRow(h: Head, inUse: seq<bool>, i: nat, j: nat)
    requires |inUse| == 256 && i < 16 && j < 16
    ensures Reaches(Mapping2(h, Heads(inUse), inUse[..16 * i + j], j), Row16(inUse, i)[j..],
                    EnterRow(h, Heads(inUse), inUse[..16 * (i + 1)]))
    decreases 16 - j
  {
    hide Reaches, EnterRow, Heads;
    var s, b, n := inUse[..16 * i + j], inUse[16 * i + j], Heads(inUse);
    var m, last := Mapping2(h, n, s, j), EnterRow(h, n, inUse[..16 * (i + 1)]);
    ReachBit(m, b);
    assert s + [b] == inUse[..16 * i + (j + 1)];
    if j + 1 < 16 {
      ReadRow(h, inUse, i, j + 1);
      ReachThen(m, [b], Mapping2(h, n, s + [b], j + 1), Row16(inUse, i)[j + 1..], last);
      assert Row16(inUse, i)[j..] == [b] + Row16(inUse, i)[j + 1..];
    } else {
      assert Row16(inUse, i)[j..] == [b];
    }
  }

  /** Leaving out a clear row changes nothing. */
  lemma ClearRow(h: Head, inUse16: seq<bool>, before: seq<bool>, row: seq<bool>, i: nat)
    requires |inUse16| == 16 && i < 16 && !inUse16[i] && |before| == 16 * i && row == Nothing(16)
    ensures EnterRow(h, inUse16, before) == EnterRow(h, inUse16, before + row)
  {
    hide Used;
    var r := NextRow(inUse16, i);
    assert r == NextRow(inUse16, i + 1);
    assert before + Nothing(16 * (r - i)) == before + row + Nothing(16 * (r - (i + 1)));
    assert |before + row| / 16 == i + 1;
  }

  /** An unused row is skipped and left clear. */
  lemma SkipRow(h: Head, inUse: seq<bool>, i: nat)
    requires |inUse| == 256 && i < 16 && !RowUsed(inUse, i)
    ensures EnterRow(h, Heads(inUse), inUse[..16 * i]) == EnterRow(h, Heads(inUse), inUse[..16 * (i + 1)])
  {
    hide EnterRow;
    var row := Row16(inUse, i);
    assert forall k :: 0 <= k < 16 ==> row[k] in row;
    assert inUse[..16 * (i + 1)] == inUse[..16 * i] + row;
    ClearRow(h, Heads(inUse), inUse[..16 * i], row, i);
  }

  /** A row in use is the next one asked for. */
  lemma EnterUsed(h: Head, inUse: seq<bool>, i: nat)
    requires |inUse| == 256 && i < 16 && RowUsed(inUse, i)
    ensures EnterRow(h, Heads(inUse), inUse[..16 * i]) == Mapping2(h, Heads(inUse), inUse[..16 * i], 0)
  {
    hide RowUsed, Used;
    assert inUse[..16 * i] + Nothing(0) == inUse[..16 * i];
  }

  lemma EnterEnd(h: Head, inUse: seq<bool>)
    requires |inUse| == 256 && |Used(inUse, 256)| > 0
    ensures EnterRow(h, Heads(inUse), inUse) == Selector1(h, inUse)
  {
    hide RowUsed, Used;
    assert inUse + Nothing(0) == inUse;
  }

  lemma {:induction false} ReadRows(h: Head, inUse: seq<bool>, i: nat)
    requires |inUse| == 256 && i <= 16 && |Used(inUse, 256)| > 0
    ensures Reaches(EnterRow(h, Heads(inUse), inUse[..16 * i]), RowsFrom(inUse, i), Selector1(h, inUse))
    decreases 16 - i
  {
    hide Reaches, Used, RowUsed, EnterRow, Heads;
    var from, last := EnterRow(h, Heads(inUse), inUse[..16 * i]), Selector1(h, inUse);
    if i == 16 {
      assert inUse[..256] == inUse;
      EnterEnd(h, inUse);
      ReachNothing(last);
    } else {
      ReadRows(h, inUse, i + 1);
      if RowUsed(inUse, i) {
        EnterUsed(h, inUse, i);
        assert Row16(inUse, i)[0..] == Row16(inUse, i);
        ReadRow(h, inUse, i, 0);
        ReachThen(from, Row16(inUse, i), EnterRow(h, Heads(inUse), inUse[..16 * (i + 1)]), RowsFrom(inUse, i + 1), last);
      } else {
        SkipRow(h, inUse, i);
        assert RowsFrom(inUse, i) == RowsFrom(inUse, i + 1);
      }
    }
  }

  lemma ReadMap(h: Head, inUse: seq<bool>)
    requires |inUse| == 256 && |Used(inUse, 256)| > 0
    ensures Reaches(Mapping1(h, []), HeadFrom(inUse, 0) + RowsFrom(inUse, 0), Selector1(h, inUse))
  {
    hide Reaches, EnterRow, Used;
    ReadHead(h, inUse, 0);
    ReadRows(h, inUse, 0);
    assert Heads(inUse)[..0] == [] && inUse[..0] == [];
    ReachThen(Mapping1(h, []), HeadFrom(inUse, 0), EnterRow(h, Heads(inUse), []), RowsFrom(inUse, 0), Selector1(h, inUse));
  }

  // ---------- Selectors ----------

  lemma {:induction false} ReadUnary(h: Head, inUse: seq<bool>, nGroups: nat, nSelectors: nat, ranks: seq<nat>, k: nat, j: nat)
    requires j <= k < nGroups
    ensures var s := Selector3(h, inUse, nGroups, nSelectors, ranks, k);
            Reaches(Selector3(h, inUse, nGroups, nSelectors, ranks, j), Unary(k - j), Step(s, 0))
    decreases k - j
  {
    hide Reaches, Iota, Unrank;
    var from, last := Selector3(h, inUse, nGroups, nSelectors, ranks, j), Step(Selector3(h, inUse, nGroups, nSelectors, ranks, k), 0);
    if j == k {
      ReachBit(from, false);
    } else {
      ReachBit(from, true);
      ReadUnary(h, inUse, nGroups, nSelectors, ranks, k, j + 1);
      ReachThen(from, [true], Selector3(h, inUse, nGroups, nSelectors, ranks, j + 1), Unary(k - j - 1), last);
    }
  }

  lemma {:induction false} ReadRanks(h: Head, inUse: seq<bool>, nGroups: nat, ranks: seq<nat>, i: nat)
    requires i < |ranks| && forall k :: 0 <= k < |ranks| ==> ranks[k] < nGroups
    ensures Reaches(Selector3(h, inUse, nGroups, |ranks|, ranks[..i], 0), UnaryAll(ranks[i..]),
                    Coding1(h, inUse, nGroups, Unrank(ranks, Iota(nGroups)), []))
    decreases |ranks| - i
  {
    hide Reaches, Iota, Unrank;
    var from := Selector3(h, inUse, nGroups, |ranks|, ranks[..i], 0);
    var last := Coding1(h, inUse, nGroups, Unrank(ranks, Iota(nGroups)), []);
    ReadUnary(h, inUse, nGroups, |ranks|, ranks[..i], ranks[i], 0);
    assert ranks[..i] + [ranks[i]] == ranks[..i + 1];
    assert ranks[i..][1..] == ranks[i + 1..];
    if i + 1 < |ranks| {
      var next := Selector3(h, inUse, nGroups, |ranks|, ranks[..i + 1], 0);
      ReadRanks(h, inUse, nGroups, ranks, i + 1);
      ReachThen(from, Unary(ranks[i]), next, UnaryAll(ranks[i + 1..]), last);
    } else {
      assert ranks[..i + 1] == ranks;
      assert UnaryAll(ranks[i..]) == Unary(ranks[i]) + [] == Unary(ranks[i]);
    }
  }

  /** Undoing the move-to-front gives the selectors back. */
  lemma {:induction false} UnrankRanks(selectors: seq<nat>, pos: seq<nat>)
    requires Distinct(pos) && AllIn(selectors, pos)
    ensures Unrank(Ranks(selectors, pos), pos) == selectors
    decreases |selectors|
  {
    if selectors != [] {
      var k := IndexOf(pos, selectors[0]);
      MoveFrontFacts(pos, k);
      UnrankRanks(selectors[1..], MoveFront(pos, k));
      assert Ranks(selectors, pos)[1..] == Ranks(selectors[1..], MoveFront(pos, k));
    }
  }

  lemma ReadSelectors(h: Head, inUse: seq<bool>, nGroups: nat, selectors: seq<nat>)
    requires 2 <= nGroups <= 6 && 1 <= |selectors| < 32768
    requires AllIn(selectors, Iota(nGroups))
    ensures Reaches(Selector1(h, inUse),
                    ToBits(nGroups, 3) + (ToBits(|selectors|, 15) + UnaryAll(Ranks(selectors, Iota(nGroups)))),
                    Coding1(h, inUse, nGroups, selectors, []))
  {
    hide Reaches, ToBits, Ranks, Unrank, UnaryAll;
    var ranks := Ranks(selectors, Iota(nGroups));
    var s1, s2, s3 := Selector1(h, inUse), Selector2(h, inUse, nGroups), Selector3(h, inUse, nGroups, |selectors|, [], 0);
    var last := Coding1(h, inUse, nGroups, selectors, []);
    SmallPowers();
    ReachBits(s1, nGroups, 3);
    ReachBits(s2, |selectors|, 15);
    ReadRanks(h, inUse, nGroups, ranks, 0);
    UnrankRanks(selectors, Iota(nGroups));
    assert ranks[..0] == [] && ranks[0..] == ranks;
    ReachThen(s2, ToBits(|selectors|, 15), s3, UnaryAll(ranks), last);
    ReachThen(s1, ToBits(nGroups, 3), s2, ToBits(|selectors|, 15) + UnaryAll(ranks), last);
  }

  lemma SmallPowers()
    ensures Pow2(3) == 8 && Pow2(5) == 32 && Pow2(15) == 32768
  {
    assert Pow2(5) == 32;
    Pow2Add(5, 5);
    Pow2Add(10, 5);
  }

  // ---------- Code lengths ----------

  /** The lengths as the decoder keeps them. */
  function Lens(len: seq<nat>): (r: seq<Len>)
    requires forall v :: 0 <= v < |len| ==> 1 <= len[v] <= 20
    ensures r == len
  {
    seq(|len|, v requires 0 <= v < |len| => len[v])
  }

  lemma {:induction false} ReadSteps(h: Head, inUse: seq<bool>, nGroups: nat, selector: seq<nat>, len: seq<seq<Len>>,
                                     row: seq<Len>, curr: Len, target: Len)
    ensures Reaches(Coding2(h, inUse, nGroups, selector, len, row, curr), Steps(curr, target) + [false],
                    AfterCoding2(h, inUse, nGroups, selector, len, row, target, 0))
    decreases if curr < target then target - curr else curr - target
  {
    hide Reaches, AfterCoding2;
    var from := Coding2(h, inUse, nGroups, selector, len, row, curr);
    var last := AfterCoding2(h, inUse, nGroups, selector, len, row, target, 0);
    if curr == target {
      ReachBit(from, false);
      assert Steps(curr, target) + [false] == [false];
    } else {
      var up := curr < target;
      var next: Len := if up then curr + 1 else curr - 1;
      var ask := Coding3(h, inUse, nGroups, selector, len, row, curr);
      var moved := Coding2(h, inUse, nGroups, selector, len, row, next);
      ReachBit(from, true);
      AskStep(h, inUse, nGroups, selector, len, row, curr);
      ReachBit(ask, !up);
      ReachThen(from, [true], ask, [!up], moved);
      ReadSteps(h, inUse, nGroups, selector, len, row, next, target);
      ReachThen(from, [true] + [!up], moved, Steps(next, target) + [false], last);
      assert Steps(curr, target) + [false] == ([true] + [!up]) + (Steps(next, target) + [false]);
    }
  }

  lemma AskStep(h: Head, inUse: seq<bool>, nGroups: nat, selector: seq<nat>, len: seq<seq<Len>>, row: seq<Len>, curr: Len)
    ensures AfterCoding2(h, inUse, nGroups, selector, len, row, curr, 1) == Coding3(h, inUse, nGroups, selector, len, row, curr)
  {
  }

  /** The rest of one table, from length v on. */
  lemma {:induction false} ReadDeltas(h: Head, inUse: seq<bool>, nGroups: nat, selector: seq<nat>, len: seq<seq<Len>>,
                                      row: seq<Len>, curr: Len, v: nat)
    requires v < |row| == |Used(inUse, |inUse|)| + 2
    ensures Reaches(Coding2(h, inUse, nGroups, selector, len, row[..v], curr), Deltas(curr, row[v..]),
                    TableDone(h, inUse, nGroups, selector, len + [row]))
    decreases |row| - v
  {
    hide Reaches, Used, TableDone, Steps;
    var from := Coding2(h, inUse, nGroups, selector, len, row[..v], curr);
    ReadSteps(h, inUse, nGroups, selector, len, row[..v], curr, row[v]);
    assert row[..v] + [row[v]] == row[..v + 1];
    assert row[v..][1..] == row[v + 1..];
    AfterLength(h, inUse, nGroups, selector, len, row, v);
    if v + 1 < |row| {
      ReadDeltas(h, inUse, nGroups, selector, len, row, row[v], v + 1);
      ReachThen(from, Steps(curr, row[v]) + [false], Coding2(h, inUse, nGroups, selector, len, row[..v + 1], row[v]),
                Deltas(row[v], row[v + 1..]), TableDone(h, inUse, nGroups, selector, len + [row]));
    } else {
      assert Deltas(curr, row[v..]) == Steps(curr, row[v]) + [false] + [] == Steps(curr, row[v]) + [false];
    }
  }

  /** What follows a complete table: another one, or the first symbol. */
  function TableDone(h: Head, inUse: seq<bool>, nGroups: nat, selector: seq<nat>, len: seq<seq<Len>>): State {
    if |len| < nGroups then Coding1(h, inUse, nGroups, selector, len)
    else BeginSymbol(h, Tables(inUse, selector, len), StartWork(), AnySymbol)
  }

  lemma AfterLength(h: Head, inUse: seq<bool>, nGroups: nat, selector: seq<nat>, len: seq<seq<Len>>, row: seq<Len>, v: nat)
    requires v < |row| == |Used(inUse, |inUse|)| + 2
    ensures AfterCoding2(h, inUse, nGroups, selector, len, row[..v], row[v], 0) ==
      if v + 1 < |row| then Coding2(h, inUse, nGroups, selector, len, row[..v + 1], row[v])
      else TableDone(h, inUse, nGroups, selector, len + [row])
  {
    hide Used, BeginSymbol;
    assert row[..v] + [row[v]] == row[..v + 1];
    if v + 1 == |row| {
      assert row[..v + 1] == row;
    }
  }

  lemma ReadTable(h: Head, inUse: seq<bool>, nGroups: nat, selector: seq<nat>, len: seq<seq<Len>>, row: seq<Len>)
    requires |row| == |Used(inUse, |inUse|)| + 2
    ensures Reaches(Coding1(h, inUse, nGroups, selector, len), TableBits(row),
                    TableDone(h, inUse, nGroups, selector, len + [row]))
  {
    hide Reaches, Used, TableDone, ToBits, Deltas;
    var s1, s2 := Coding1(h, inUse, nGroups, selector, len), Coding2(h, inUse, nGroups, selector, len, [], row[0]);
    SmallPowers();
    ReachBits(s1, row[0], 5);
    ReadDeltas(h, inUse, nGroups, selector, len, row, row[0], 0);
    assert row[..0] == [] && row[0..] == row;
    ReachThen(s1, ToBits(row[0], 5), s2, Deltas(row[0], row), TableDone(h, inUse, nGroups, selector, len + [row]));
  }

  lemma {:induction false} ReadTables(h: Head, inUse: seq<bool>, selector: seq<nat>, lens: seq<seq<Len>>, i: nat)
    requires i < |lens| && forall t :: 0 <= t < |lens| ==> |lens[t]| == |Used(inUse, |inUse|)| + 2
    ensures Reaches(Coding1(h, inUse, |lens|, selector, lens[..i]), TablesBits(lens[i..]),
                    BeginSymbol(h, Tables(inUse, selector, lens), StartWork(), AnySymbol))
    decreases |lens| - i
  {
    hide Reaches, Used, TableBits, BeginSymbol;
    var last := BeginSymbol(h, Tables(inUse, selector, lens), StartWork(), AnySymbol);
    var from := Coding1(h, inUse, |lens|, selector, lens[..i]);
    ReadTable(h, inUse, |lens|, selector, lens[..i], lens[i]);
    assert lens[..i] + [lens[i]] == lens[..i + 1];
    assert lens[i..][1..] == lens[i + 1..];
    if i + 1 < |lens| {
      ReadTables(h, inUse, selector, lens, i + 1);
      ReachThen(from, TableBits(lens[i]), Coding1(h, inUse, |lens|, selector, lens[..i + 1]), TablesBits(lens[i + 1..]), last);
    } else {
      assert lens[..i + 1] == lens;
      assert TablesBits(lens[i..]) == TableBits(lens[i]) + [] == TableBits(lens[i]);
    }
  }
}
