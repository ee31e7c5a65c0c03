/** The symbol loop of the decoder machine undoes the symbol coding: canonical
    codes in groups of fifty, zero runs, move-to-front. */
module DecodeSymbols {
  import opened Arith
  import opened Bits
  import opened CountingSort
  import opened Rotations
  import opened MoveToFront
  import opened GenerateMtf
  import opened CanonicalCode
  import opened BlockImage
  import opened DecoderMachine
  import opened DecodeImage
  import opened Histogram
  import CodeLengths

  // ---------- One code ----------

  lemma QuotientBit(v: nat, p: nat)
    requires p >= 1
    ensures v / p == 2 * (v / (2 * p)) + v / p % 2
  {
    DivDef(v, 2 * p);
    var q, r := v / (2 * p), v % (2 * p);
    Double(q, p);
    if r < p {
      DivUnique(v, p, 2 * q, r);
    } else {
      Distribute(2 * q, 1, p);
      DivUnique(v, p, 2 * q + 1, r - p);
    }
  }

  /** The code read bit by bit: z bits give the code shifted right. */
  lemma CodeBit(v: nat, n: nat, z: nat)
    requires z < n
    ensures v / Pow2(n - z - 1) == v / Pow2(n - z) * 2 + (if ToBits(v, n)[z] then 1 else 0)
    ensures ToBits(v, n)[z..] == [ToBits(v, n)[z]] + ToBits(v, n)[z + 1..]
  {
    hide ToBits, Pow2;
    var k := n - z - 1;
    DoublePower(k);
    ToBitsPrefix(v, n, k);
    assert ToBits(v, n)[z] == ToBits(v, n)[..n - k][z];
    LastBit(v / Pow2(k), z + 1);
    QuotientBit(v, Pow2(k));
  }

  lemma DoublePower(k: nat)
    ensures Pow2(k + 1) == 2 * Pow2(k)
  {
  }

  lemma LastBit(v: nat, n: nat)
    requires n > 0
    ensures ToBits(v, n)[n - 1] <==> v % 2 == 1
  {
  }

  /** The first z bits of a symbol's code, as a number. */
  function Cut(len: seq<nat>, sym: nat, z: nat): nat
    requires sym < |len| && z <= len[sym]
  {
    Quotient(Code(len, sym), Pow2(len[sym] - z))
  }

  lemma CutFacts(len: seq<nat>, sym: nat, z: nat)
    requires sym < |len| && z <= len[sym]
    ensures z == len[sym] ==> Cut(len, sym, z) == Code(len, sym)
    ensures z < len[sym] ==> Cut(len, sym, z + 1) == Cut(len, sym, z) * 2 + (if CodeBits(len, sym)[z] then 1 else 0)
    ensures z < len[sym] ==> CodeBits(len, sym)[z..] == [CodeBits(len, sym)[z]] + CodeBits(len, sym)[z + 1..]
  {
    hide ToBits, Code;
    if z < len[sym] {
      CodeBit(Code(len, sym), len[sym], z);
    }
  }

  /** The table a symbol is decoded with, and the facts the lookup needs. */
  ghost predicate Decodes(t: Tables, w: Work, len: seq<Len>) {
    && 0 <= w.groupNo < |t.selector| && t.selector[w.groupNo] < |t.len| && t.len[t.selector[w.groupNo]] == len
    && |len| <= MAX_ALPHA_SIZE && GoodLengths(len, |len|)
  }

  /** A complete code lies within the limit and finds its symbol. */
  lemma CodeFindsSymbol(len: seq<Len>, sym: nat)
    requires sym < |len|
    ensures Code(len, sym) <= LimitFor(len, len[sym]) && |PermFor(len)| == |len|
    ensures var k := Code(len, sym) - BaseFor(len, len[sym]); 0 <= k < |PermFor(len)| && PermFor(len)[k] == sym
  {
    hide Code, Limit, Base, StableOrder;
    Lookup(len, sym, MaxLen(len) + 1);
    OrderIsFull(len, MaxLen(len) + 1);
  }

  lemma FoundAt(h: Head, t: Tables, w: Work, goal: Goal, len: seq<Len>, sym: nat)
    requires sym < |len| && Decodes(t, w, len)
    ensures TrySymbol(h, t, w, goal, len[sym], Cut(len, sym, len[sym])) == GotSymbol(h, t, w, goal, sym)
  {
    hide GotSymbol, Code, LimitFor, BaseFor, PermFor, CodeLengths.Kraft, Cut;
    CutFacts(len, sym, len[sym]);
    CodeFindsSymbol(len, sym);
  }

  lemma ShorterExceeds(len: seq<nat>, sym: nat, z: nat)
    requires sym < |len| && z < len[sym]
    ensures Cut(len, sym, z) > Limit(len, z)
  {
    LongerCodeIsBeyond(len, sym, z);
  }

  lemma TooShort(h: Head, t: Tables, w: Work, goal: Goal, len: seq<Len>, sym: nat, zn: Pos)
    requires sym < |len| && Decodes(t, w, len) && zn < len[sym]
    ensures TrySymbol(h, t, w, goal, zn, Cut(len, sym, zn)) == MtfNext(h, t, w, goal, zn + 1, Cut(len, sym, zn))
  {
    hide GotSymbol, Cut, Limit, Base, PermFor, CodeLengths.Kraft;
    ShorterExceeds(len, sym, zn);
  }

  lemma {:induction false} ReadRest(h: Head, t: Tables, w: Work, goal: Goal, len: seq<Len>, sym: nat, zn: Pos)
    requires sym < |len| && Decodes(t, w, len) && zn <= len[sym]
    ensures Reaches(TrySymbol(h, t, w, goal, zn, Cut(len, sym, zn)), CodeBits(len, sym)[zn..],
                    GotSymbol(h, t, w, goal, sym))
    decreases len[sym] - zn
  {
    hide Reaches, Decodes, TrySymbol, GotSymbol, Cut, ToBits;
    var bits := CodeBits(len, sym);
    CutFacts(len, sym, zn);
    if zn == len[sym] {
      FoundAt(h, t, w, goal, len, sym);
      assert bits[zn..] == [];
      ReachNothing(GotSymbol(h, t, w, goal, sym));
    } else {
      TooShort(h, t, w, goal, len, sym, zn);
      var s := MtfNext(h, t, w, goal, zn + 1, Cut(len, sym, zn));
      ReachBit(s, bits[zn]);
      ReadRest(h, t, w, goal, len, sym, zn + 1);
      ReachThen(s, [bits[zn]], TrySymbol(h, t, w, goal, zn + 1, Cut(len, sym, zn + 1)), bits[zn + 1..],
                GotSymbol(h, t, w, goal, sym));
    }
  }

  lemma FirstBits(len: seq<nat>, sym: nat, z: nat)
    requires sym < |len| && GoodLengths(len, |len|) && z <= len[sym]
    ensures CodeBits(len, sym)[..z] == ToBits(Cut(len, sym, z), z) && Cut(len, sym, z) < Pow2(z)
  {
    hide ToBits, Code, CodeLengths.Kraft;
    CodesFit(len, MAX_LEN, sym);
    var k := len[sym] - z;
    ToBitsPrefix(Code(len, sym), len[sym], k);
    Pow2Add(z, k);
    DivBelow(Code(len, sym), Pow2(k), Pow2(z));
  }

  lemma MinLenFits(t: Tables, w: Work, len: seq<Len>, sym: nat)
    requires sym < |len| && Decodes(t, w, len)
    ensures MinLen(len) <= len[sym]
  {
  }

  lemma FirstStep(h: Head, t: Tables, w: Work, goal: Goal, zn: Pos, v: nat)
    ensures var s := MtfFirst(h, t, w, goal, zn); Need(s) == zn && Step(s, v) == TrySymbol(h, t, w, goal, zn, v)
  {
  }

  lemma ReadCode(h: Head, t: Tables, w: Work, goal: Goal, len: seq<Len>, sym: nat)
    requires sym < |len| && Decodes(t, w, len)
    ensures Reaches(MtfFirst(h, t, w, goal, MinLen(len)), CodeBits(len, sym), GotSymbol(h, t, w, goal, sym))
  {
    hide Reaches, TrySymbol, GotSymbol, Cut, Code, ToBits, Pow2, CodeLengths.Kraft, MinLen, Step;
    MinLenFits(t, w, len, sym);
    var bits, zn := CodeBits(len, sym), MinLen(len);
    FirstBits(len, sym, zn);
    FirstStep(h, t, w, goal, zn, Cut(len, sym, zn));
    ReachBits(MtfFirst(h, t, w, goal, zn), Cut(len, sym, zn), zn);
    ReadRest(h, t, w, goal, len, sym, zn);
    assert bits[..zn] + bits[zn..] == bits;
    ReachThen(MtfFirst(h, t, w, goal, zn), bits[..zn], TrySymbol(h, t, w, goal, zn, Cut(len, sym, zn)), bits[zn..],
              GotSymbol(h, t, w, goal, sym));
  }

  // ---------- Groups of fifty ----------

  /** w when i symbols have been begun: which group, and how much of it is left. */
  function Placed(w: Work, i: nat): Work {
    w.(groupNo := (i + 49) / 50 - 1, groupPos := 50 * ((i + 49) / 50) - i)
  }

  /** The decoder holds the sender's coding. */
  ghost predicate Coded(t: Tables, c: Coding, syms: seq<nat>) {
    && t.selector == c.selectors && t.len == c.lens && Codable(c, syms)
    && |Used(t.inUse, |t.inUse|)| <= 256
    && GoodCoding(c, |Used(t.inUse, |t.inUse|)| + 2, |syms|)
  }

  lemma GroupStep(w: Work, i: nat)
    ensures Placed(w, i + 1).groupNo == i / 50 && Placed(w, i + 1).groupPos == 50 * (i / 50) + 49 - i
    ensures Placed(w, i).groupPos == 0 ==> Placed(w, i).groupNo + 1 == i / 50 && 50 * (i / 50) == i
    ensures Placed(w, i).groupPos > 0 ==>
      Placed(w, i).groupNo == i / 50 && Placed(w, i).groupPos - 1 == Placed(w, i + 1).groupPos
  {
  }

  lemma BeginIs(h: Head, t: Tables, w: Work, goal: Goal, i: nat)
    requires i / 50 < |t.selector| && t.selector[i / 50] < |t.len|
    ensures BeginSymbol(h, t, Placed(w, i), goal)
         == MtfFirst(h, t, Placed(w, i + 1), goal, MinLen(t.len[t.selector[i / 50]]))
  {
    GroupStep(w, i);
  }

  lemma ReadSymbol(h: Head, t: Tables, w: Work, goal: Goal, c: Coding, syms: seq<nat>, i: nat)
    requires Coded(t, c, syms) && i < |syms|
    ensures CodableAt(c, syms, i)
    ensures Reaches(BeginSymbol(h, t, Placed(w, i), goal), CodeBits(LensAt(c, i), syms[i]),
                    GotSymbol(h, t, Placed(w, i + 1), goal, syms[i]))
  {
    hide Reaches, GotSymbol, BeginSymbol, Used, CodeLengths.Kraft, CodeBits, Placed;
    var w' := Placed(w, i + 1);
    GroupStep(w, i);
    BeginIs(h, t, w, goal, i);
    assert CodableAt(c, syms, i);
    var len := t.len[t.selector[w'.groupNo]];
    assert GoodLengths(c.lens[c.selectors[i / 50]], |Used(t.inUse, |t.inUse|)| + 2);
    ReadCode(h, t, w', goal, len, syms[i]);
  }

  /** Symbols i.. are still to come and will lead to `last`. */
  ghost predicate Leads(s: State, c: Coding, syms: seq<nat>, i: nat, last: State)
    requires Codable(c, syms) && i <= |syms|
  {
    Reaches(s, SymbolBits(c, syms, i), last)
  }

  lemma OneSymbol(h: Head, t: Tables, w: Work, goal: Goal, c: Coding, syms: seq<nat>, i: nat, last: State)
    requires Coded(t, c, syms) && i < |syms|
    requires Leads(GotSymbol(h, t, Placed(w, i + 1), goal, syms[i]), c, syms, i + 1, last)
    ensures Leads(BeginSymbol(h, t, Placed(w, i), goal), c, syms, i, last)
  {
    hide Reaches, GotSymbol, BeginSymbol, CodeBits;
    ReadSymbol(h, t, w, goal, c, syms, i);
    ReachThen(BeginSymbol(h, t, Placed(w, i), goal), CodeBits(LensAt(c, i), syms[i]),
              GotSymbol(h, t, Placed(w, i + 1), goal, syms[i]), SymbolBits(c, syms, i + 1), last);
  }

  // ---------- Runs ----------

  lemma DigitStep(es: int, n: nat, d: nat, r: nat)
    ensures es + (d + 1) * n + (n * 2) * r == es + n * (d + 1 + 2 * r)
  {
  }

  /** Read the remaining digits of a run and the symbol that ends it. */
  lemma {:induction false} ReadDigits(h: Head, t: Tables, w: Work, es: int, n: nat, c: Coding, syms: seq<nat>,
                                      i: nat, k: nat, last: State)
    requires Coded(t, c, syms) && i <= k < |syms| && syms[k] > RUNB && n * Pow2(k - i) <= 2 * 1024 * 1024
    requires forall x :: i <= x < k ==> syms[x] <= RUNB
    requires Leads(EndRun(h, t, Placed(w, k + 1), es + n * RunValue(syms[i..k]), syms[k]), c, syms, k + 1, last)
    ensures Leads(BeginSymbol(h, t, Placed(w, i), RunDigit(es, n)), c, syms, i, last)
    decreases k - i
  {
    hide Leads, BeginSymbol, EndRun, Coded, Placed;
    if i < k {
      var d := syms[i];
      assert syms[i..k][1..] == syms[i + 1..k];
      DigitStep(es, n, d, RunValue(syms[i + 1..k]));
      Double(n, Pow2(k - i - 1));
      MulMono(2, 2 * Pow2(k - i - 1), n);
      ReadDigits(h, t, w, es + (d + 1) * n, n * 2, c, syms, i + 1, k, last);
      DigitGot(h, t, Placed(w, i + 1), es, n, d);
    } else {
      assert syms[i..k] == [];
    }
    OneSymbol(h, t, w, RunDigit(es, n), c, syms, i, last);
  }

  lemma DigitGot(h: Head, t: Tables, w: Work, es: int, n: nat, d: nat)
    requires d <= RUNB && n < 2 * 1024 * 1024
    ensures GotSymbol(h, t, w, RunDigit(es, n), d) == BeginSymbol(h, t, w, RunDigit(es + (d + 1) * n, n * 2))
  {
  }

  /** The work after a run of z copies of the front byte. */
  function Filled(t: Tables, w: Work, z: nat): Work {
    var uc := Unseq(t, Front(w));
    w.(bytes := w.bytes + Repeat(uc, z), unzftab := Bump(w.unzftab, uc, z))
  }

  lemma EndRunFills(h: Head, t: Tables, w: Work, z: nat, x: nat)
    requires |w.bytes| + z <= 100000 * h.level
    ensures EndRun(h, t, w, z - 1, x) == NextSymbol(h, t, Filled(t, w, z), x)
  {
  }

  lemma FilledNothing(t: Tables, w: Work)
    ensures Filled(t, w, 0) == w
  {
    assert w.bytes + Repeat(Unseq(t, Front(w)), 0) == w.bytes;
  }

  lemma FirstDigit(h: Head, t: Tables, w: Work, d: nat)
    requires d <= RUNB && |Used(t.inUse, |t.inUse|)| >= 1
    ensures GotSymbol(h, t, w, AnySymbol, d) == BeginSymbol(h, t, w, RunDigit(d, 2))
  {
    hide Used;
  }

  lemma RunCodeParts(z: nat)
    requires 0 < z <= 900000
    ensures var r := RunCode(z); r != [] && 2 * Pow2(|r| - 1) <= 2 * 1024 * 1024 && r[0] + 2 * RunValue(r[1..]) == z - 1
  {
    RunRoundTrip(z);
  }

  /** Read a whole run, possibly empty, and the symbol after it. */
  lemma ReadRun(h: Head, t: Tables, w: Work, z: nat, c: Coding, syms: seq<nat>, i: nat, last: State)
    requires Coded(t, c, syms) && |Used(t.inUse, |t.inUse|)| >= 1
    requires i + |RunCode(z)| < |syms| && syms[i..i + |RunCode(z)|] == RunCode(z)
    requires |w.bytes| + z <= 100000 * h.level <= 900000
    requires var k := i + |RunCode(z)|;
             syms[k] > RUNB && Leads(NextSymbol(h, t, Filled(t, Placed(w, k + 1), z), syms[k]), c, syms, k + 1, last)
    ensures Leads(BeginSymbol(h, t, Placed(w, i), AnySymbol), c, syms, i, last)
  {
    hide Leads, BeginSymbol, EndRun, NextSymbol, Coded, RunCode, Filled, Used;
    var r, k := RunCode(z), i + |RunCode(z)|;
    if z == 0 {
      NoDigits();
      FilledNothing(t, Placed(w, k + 1));
    } else {
      RunCodeParts(z);
      forall x | i <= x < k ensures syms[x] <= RUNB {
        assert syms[x] == r[x - i];
      }
      assert syms[i + 1..k] == r[1..] && syms[i] == r[0];
      EndRunFills(h, t, Placed(w, k + 1), z, syms[k]);
      ReadDigits(h, t, w, r[0], 2, c, syms, i + 1, k, last);
      FirstDigit(h, t, Placed(w, i + 1), r[0]);
    }
    OneSymbol(h, t, w, AnySymbol, c, syms, i, last);
  }

  lemma NoDigits()
    ensures RunCode(0) == []
  {
  }

  // ---------- The whole column ----------

  /** The bytes a column of sequence numbers stands for. */
  function Bytes(t: Tables, column: seq<nat>): (r: Block)
    ensures |r| == |column|
  {
    seq(|column|, i requires 0 <= i < |column| => Unseq(t, column[i]))
  }

  /** The front of the machine's list is the sender's list. */
  ghost predicate Lists(t: Tables, w: Work, list: seq<nat>) {
    && |list| == |Used(t.inUse, |t.inUse|)| && 1 <= |list| <= |w.list| && w.list[..|list|] == list
  }

  /** Exactly these symbols are left from i on. */
  ghost predicate Ahead(syms: seq<nat>, i: nat, rest: seq<nat>) {
    i <= |syms| && syms[i..] == rest
  }

  /** Symbols i.. encode a pending run and a column; there is room for both. */
  ghost predicate Encodes(h: Head, t: Tables, w: Work, syms: seq<nat>, i: nat, list: seq<nat>, column: seq<nat>, z: nat) {
    && Lists(t, w, list) && Distinct(list) && AllIn(column, list)
    && Ahead(syms, i, Encode(list, column, z) + [|list| + 1])
    && |w.bytes| + z + |column| <= 100000 * h.level <= 900000 && h.origPtr < |w.bytes| + z + |column|
    && w.unzftab == Hist(w.bytes)
  }

  lemma FilledCounts(t: Tables, w: Work, z: nat)
    requires w.unzftab == Hist(w.bytes)
    ensures Filled(t, w, z).unzftab == Hist(Filled(t, w, z).bytes)
  {
    hide Hist;
    HistRun(w.bytes, Unseq(t, Front(w)), z);
  }

  lemma EndOfColumn(h: Head, t: Tables, w: Work, c: Coding, syms: seq<nat>, i: nat, list: seq<nat>, z: nat)
    requires Coded(t, c, syms) && Encodes(h, t, w, syms, i, list, [], z)
    ensures Leads(BeginSymbol(h, t, Placed(w, i), AnySymbol), c, syms, i, Done(h, w.bytes + Repeat(Unseq(t, list[0]), z)))
  {
    hide Reaches, BeginSymbol, Coded, RunCode, Used, Hist, Finish, Unseq;
    var k := i + |RunCode(z)|;
    var w' := Filled(t, Placed(w, k + 1), z);
    var last := Done(h, w.bytes + Repeat(Unseq(t, list[0]), z));
    assert syms[i..] == RunCode(z) + [|list| + 1];
    assert syms[k] == syms[i..][k - i] && syms[i..k] == syms[i..][..k - i];
    assert k + 1 == |syms|;
    FilledCounts(t, Placed(w, k + 1), z);
    FinishChecksOrigPtr(h, w');
    HoldsCodable(t, c, syms);
    ReachNothing(last);
    assert Leads(last, c, syms, k + 1, last);
    ReadRun(h, t, w, z, c, syms, i, last);
  }

  lemma HoldsCodable(t: Tables, c: Coding, syms: seq<nat>)
    requires Coded(t, c, syms)
    ensures Codable(c, syms)
  {
  }

  /** The work after a run and one moved byte. */
  function Moved(t: Tables, w: Work, z: nat, k: nat): Work
    requires k < |w.list|
  {
    var f := Filled(t, w, z);
    var uc := Unseq(t, w.list[k]);
    f.(list := MoveFront(w.list, k), bytes := f.bytes + [uc], unzftab := Bump(f.unzftab, uc, 1))
  }

  lemma NextIsMove(h: Head, t: Tables, w: Work, z: nat, k: nat)
    requires 1 <= k < |Used(t.inUse, |t.inUse|)| <= |w.list| && |w.bytes| + z < 100000 * h.level
    ensures NextSymbol(h, t, Filled(t, w, z), k + 1) == BeginSymbol(h, t, Moved(t, w, z, k), AnySymbol)
  {
    hide BeginSymbol, Used, Unseq, MoveFront;
  }

  /** From i on: a run of digits, then one symbol. */
  ghost predicate RunThen(syms: seq<nat>, i: nat, run: seq<nat>, x: nat) {
    var r := i + |run|;
    r < |syms| && syms[i..r] == run && syms[r] == x
  }

  /** The same, and then the rest. */
  ghost predicate SplitsAs(syms: seq<nat>, i: nat, run: seq<nat>, x: nat, rest: seq<nat>) {
    RunThen(syms, i, run, x) && Ahead(syms, i + |run| + 1, rest)
  }

  lemma SplitAt(syms: seq<nat>, i: nat, run: seq<nat>, x: nat, rest: seq<nat>)
    requires i <= |syms| && syms[i..] == run + [x] + rest
    ensures SplitsAs(syms, i, run, x, rest)
  {
    var r, all := i + |run|, run + [x] + rest;
    assert syms[i..r] == all[..|run|] && syms[r] == all[|run|] && syms[r + 1..] == all[|run| + 1..];
  }

  lemma ListedSize(t: Tables, w: Work, list: seq<nat>)
    requires Lists(t, w, list)
    ensures 1 <= |list| <= |w.list|
  {
  }

  lemma ListedMoved(t: Tables, w: Work, list: seq<nat>, z: nat, k: nat)
    requires Lists(t, w, list) && k < |list|
    ensures k < |w.list| && Lists(t, Moved(t, w, z, k), MoveFront(list, k))
    ensures |Moved(t, w, z, k).bytes| == |w.bytes| + z + 1
  {
    hide Used, Unseq;
    assert MoveFront(w.list, k)[..|list|] == MoveFront(list, k);
  }

  lemma SplitMove(syms: seq<nat>, i: nat, coded: seq<nat>, run: seq<nat>, x: nat, rest: seq<nat>, eob: nat)
    requires Ahead(syms, i, coded + [eob]) && coded == run + ([x] + rest)
    ensures SplitsAs(syms, i, run, x, rest + [eob])
  {
    assert run + ([x] + rest) + [eob] == run + [x] + (rest + [eob]);
    SplitAt(syms, i, run, x, rest + [eob]);
  }

  lemma MovedSymbols(syms: seq<nat>, i: nat, list: seq<nat>, column: seq<nat>, z: nat)
    requires list != [] && Distinct(list) && AllIn(column, list)
    requires column != [] && list[0] != column[0]
    requires Ahead(syms, i, Encode(list, column, z) + [|list| + 1])
    ensures var k := IndexOf(list, column[0]);
            && 1 <= k < |list| && Distinct(MoveFront(list, k)) && AllIn(column[1..], MoveFront(list, k))
            && SplitsAs(syms, i, RunCode(z), k + 1, Encode(MoveFront(list, k), column[1..], 0) + [|list| + 1])
  {
    hide RunCode, Encode, Distinct, IndexOf, MoveFront, AllIn, SplitsAs, Ahead;
    FirstIn(column, list);
    var k := IndexOf(list, column[0]);
    EncodeMove(list, column, z);
    InTail(column, MoveFront(list, k));
    SplitMove(syms, i, Encode(list, column, z), RunCode(z), k + 1, Encode(MoveFront(list, k), column[1..], 0), |list| + 1);
  }

  lemma MovedEncodes(h: Head, t: Tables, w: Work, syms: seq<nat>, i: nat, list: seq<nat>, column: seq<nat>, z: nat)
    requires Encodes(h, t, w, syms, i, list, column, z) && column != [] && list[0] != column[0]
    ensures var k := IndexOf(list, column[0]);
            var r := i + |RunCode(z)|;
            && 1 <= k < |list| <= |w.list| && RunThen(syms, i, RunCode(z), k + 1)
            && Encodes(h, t, Moved(t, w, z, k), syms, r + 1, MoveFront(list, k), column[1..], 0)
  {
    hide Used, Hist, RunCode, Encode, Unseq, Distinct, IndexOf, Lists, MoveFront, Moved, AllIn,
      Ahead, RunThen;
    ListedSize(t, w, list);
    FirstIn(column, list);
    var k := IndexOf(list, column[0]);
    MovedSymbols(syms, i, list, column, z);
    ListedMoved(t, w, list, z, k);
    MovedCounts(t, w, z, k);
  }

  lemma FirstIn(column: seq<nat>, list: seq<nat>)
    requires column != [] && AllIn(column, list)
    ensures column[0] in list
  {
  }

  lemma InTail(column: seq<nat>, list: seq<nat>)
    requires column != [] && AllIn(column, list)
    ensures AllIn(column[1..], list)
  {
  }

  lemma MovedCounts(t: Tables, w: Work, z: nat, k: nat)
    requires w.unzftab == Hist(w.bytes) && k < |w.list|
    ensures Moved(t, w, z, k).unzftab == Hist(Moved(t, w, z, k).bytes)
  {
    hide Hist, Unseq;
    FilledCounts(t, w, z);
    var uc := Unseq(t, w.list[k]);
    HistRun(Filled(t, w, z).bytes, uc, 1);
    assert Repeat(uc, 1) == [uc];
  }

  lemma FrontByte(t: Tables, bytes: Block, v: nat, column: seq<nat>, z: nat)
    requires column != [] && column[0] == v
    ensures bytes + Repeat(Unseq(t, v), z + 1) + Bytes(t, column[1..]) == bytes + Repeat(Unseq(t, v), z) + Bytes(t, column)
  {
    hide Unseq;
    var u := Unseq(t, v);
    assert Repeat(u, z + 1) == Repeat(u, z) + [u];
    assert Bytes(t, column) == [u] + Bytes(t, column[1..]);
  }

  lemma MovedByte(t: Tables, w: Work, list: seq<nat>, column: seq<nat>, z: nat, k: nat)
    requires Lists(t, w, list) && column != [] && k < |list| && list[k] == column[0]
    ensures forall v :: Moved(t, w, z, k).bytes + Repeat(Unseq(t, v), 0) + Bytes(t, column[1..])
                 == w.bytes + Repeat(Unseq(t, list[0]), z) + Bytes(t, column)
  {
    hide Unseq, MoveFront;
    assert w.list[k] == list[k] && w.list[0] == list[0];
    assert Bytes(t, column) == [Unseq(t, list[k])] + Bytes(t, column[1..]);
  }

  lemma MoveStep(h: Head, t: Tables, w: Work, c: Coding, syms: seq<nat>, i: nat, z: nat, k: nat, last: State)
    requires Coded(t, c, syms) && 1 <= k < |Used(t.inUse, |t.inUse|)| <= |w.list| && |w.bytes| + z < 100000 * h.level <= 900000
    requires var r := i + |RunCode(z)|;
             && RunThen(syms, i, RunCode(z), k + 1)
             && Leads(BeginSymbol(h, t, Placed(Moved(t, w, z, k), r + 1), AnySymbol), c, syms, r + 1, last)
    ensures Leads(BeginSymbol(h, t, Placed(w, i), AnySymbol), c, syms, i, last)
  {
    hide Leads, Coded, BeginSymbol, RunCode, Used, MoveFront, Unseq, NextSymbol;
    var r := i + |RunCode(z)|;
    NextIsMove(h, t, Placed(w, r + 1), z, k);
    assert Moved(t, Placed(w, r + 1), z, k) == Placed(Moved(t, w, z, k), r + 1);
    ReadRun(h, t, w, z, c, syms, i, last);
  }

  /** All symbols from i on: the machine delivers the pending run and the
      column's bytes. */
  lemma {:induction false} ReadColumn(h: Head, t: Tables, w: Work, c: Coding, syms: seq<nat>, i: nat,
                                      list: seq<nat>, column: seq<nat>, z: nat)
    requires Coded(t, c, syms) && Encodes(h, t, w, syms, i, list, column, z)
    ensures Leads(BeginSymbol(h, t, Placed(w, i), AnySymbol), c, syms, i,
                  Done(h, w.bytes + Repeat(Unseq(t, list[0]), z) + Bytes(t, column)))
    decreases |column|
  {
    hide Leads, Coded, BeginSymbol, Hist, RunCode, Used, Distinct, IndexOf, MoveFront, Unseq, NextSymbol, Moved;
    var last := Done(h, w.bytes + Repeat(Unseq(t, list[0]), z) + Bytes(t, column));
    if column == [] {
      EndOfColumn(h, t, w, c, syms, i, list, z);
      assert w.bytes + Repeat(Unseq(t, list[0]), z) + Bytes(t, column) == w.bytes + Repeat(Unseq(t, list[0]), z);
    } else if list[0] == column[0] {
      ReadColumn(h, t, w, c, syms, i, list, column[1..], z + 1);
      FrontByte(t, w.bytes, list[0], column, z);
    } else {
      var k := IndexOf(list, column[0]);
      var r := i + |RunCode(z)|;
      MovedEncodes(h, t, w, syms, i, list, column, z);
      ReadColumn(h, t, Moved(t, w, z, k), c, syms, r + 1, MoveFront(list, k), column[1..], 0);
      MovedByte(t, w, list, column, z, k);
      MoveStep(h, t, w, c, syms, i, z, k, last);
    }
  }
}
