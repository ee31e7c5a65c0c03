/** What the decoder machine never does, on any input: index outside its lists
    and tables, look at a table entry no code length filled in, or let a counter
    outgrow 32 bits. The arrays of selectors are another matter (SelectorStores). */
module DecoderBounds {
  import opened Arith
  import opened Bits
  import opened CountingSort
  import opened Rotations
  import opened MoveToFront
  import opened GenerateMtf
  import opened CanonicalCode
  import opened DecoderMachine

  ghost predicate ByteMap(inUse: seq<bool>) {
    |inUse| == 256 && 1 <= |Used(inUse, 256)|
  }

  ghost predicate LengthRows(inUse: seq<bool>, nGroups: nat, selector: seq<nat>, len: seq<seq<Len>>) {
    && ByteMap(inUse) && 2 <= nGroups <= 6 && 1 <= |selector| < 32768
    && (forall i :: 0 <= i < |selector| ==> selector[i] < nGroups)
    && (forall t :: 0 <= t < |len| ==> |len[t]| == |Used(inUse, 256)| + 2)
  }

  /** The front of the list, as long as the alphabet, holds only its values. */
  ghost predicate FrontBelow(list: seq<nat>, n: nat) {
    |list| == 256 && n <= 256 && forall i :: 0 <= i < n ==> list[i] < n
  }

  ghost predicate Working(h: Head, t: Tables, w: Work, goal: Goal) {
    && 1 <= h.level <= 9 && LengthRows(t.inUse, |t.len|, t.selector, t.len)
    && FrontBelow(w.list, |Used(t.inUse, 256)|) && |w.unzftab| == 256 && |w.bytes| <= 100000 * h.level
    && -1 <= w.groupNo < |t.selector| && w.groupPos <= 50 && (w.groupNo == -1 ==> w.groupPos == 0)
    && (goal.RunDigit? ==> 1 <= goal.n <= 0x400000 && -1 <= goal.es <= 2 * goal.n - 3)
  }

  ghost predicate Bounded(s: State) {
    match s
    case Magic(k) => 1 <= k <= 3
    case Level => true
    case BlkHdr(level, k) => 1 <= level <= 9 && 1 <= k <= 6
    case Bcrc(level, k, crc) => 1 <= level <= 9 && 1 <= k <= 4 && crc < Pow2(8 * (k - 1))
    case RandBit(level, crc) => 1 <= level <= 9 && crc < Pow2(32)
    case OrigPtr(h, k) => 1 <= h.level <= 9 && 1 <= k <= 3 && h.origPtr < Pow2(8 * (k - 1))
    case Mapping1(h, inUse16) => 1 <= h.level <= 9 && |inUse16| < 16
    case Mapping2(h, inUse16, inUse, j) =>
      1 <= h.level <= 9 && |inUse16| == 16 && j < 16 && |inUse| % 16 == j && |inUse| < 256
    case Selector1(h, inUse) => 1 <= h.level <= 9 && ByteMap(inUse)
    case Selector2(h, inUse, nGroups) => 1 <= h.level <= 9 && ByteMap(inUse) && 2 <= nGroups <= 6
    case Selector3(h, inUse, nGroups, nSelectors, ranks, j) =>
      && 1 <= h.level <= 9 && ByteMap(inUse) && 2 <= nGroups <= 6 && |ranks| < nSelectors < 32768 && j < nGroups
      && (forall i :: 0 <= i < |ranks| ==> ranks[i] < nGroups)
    case Coding1(h, inUse, nGroups, selector, len) =>
      1 <= h.level <= 9 && LengthRows(inUse, nGroups, selector, len) && |len| < nGroups
    case Coding2(h, inUse, nGroups, selector, len, row, _) =>
      1 <= h.level <= 9 && LengthRows(inUse, nGroups, selector, len) && |len| < nGroups && |row| < |Used(inUse, 256)| + 2
    case Coding3(h, inUse, nGroups, selector, len, row, _) =>
      1 <= h.level <= 9 && LengthRows(inUse, nGroups, selector, len) && |len| < nGroups && |row| < |Used(inUse, 256)| + 2
    case MtfFirst(h, t, w, goal, zn) => Working(h, t, w, goal) && 0 <= w.groupNo && zn <= 20
    case MtfNext(h, t, w, goal, zn, zvec) =>
      Working(h, t, w, goal) && 0 <= w.groupNo && 2 <= zn <= 21 && zvec < Pow2(zn - 1)
    case Output(h, bytes, unzftab) => h.origPtr < |bytes| <= 100000 * h.level <= 900000 && |unzftab| == 256
    case EndHdr(k) => 2 <= k <= 6
    case Ccrc(k, crc) => 1 <= k <= 4 && crc < Pow2(8 * (k - 1))
    case Stop(code) => code != Undefined && (code.StreamEnd? ==> code.combined < Pow2(32))
  }

  // ---------- Looking codes up ----------

  /** A value within the limit for its length finds a filled entry of perm. */
  lemma EntryIsFilled(len: seq<Len>, n: nat, v: nat)
    requires len != [] && v <= LimitFor(len, n)
    ensures v - BaseFor(len, n) < |len| == |PermFor(len)|
  {
    hide First, Positions;
    var m := MaxLen(len);
    OrderIsFull(len, m + 1);
    if n <= m {
      OrderPrefix(len, n + 1, m + 1);
    }
  }

  lemma EntryIsSymbol(len: seq<Len>, k: nat)
    requires k < |PermFor(len)|
    ensures PermFor(len)[k] < |len|
  {
    StableOrderFacts(len, MaxLen(len) + 1);
  }

  // ---------- One symbol ----------

  lemma MoveKeepsFront(list: seq<nat>, n: nat, k: nat)
    requires FrontBelow(list, n) && k < n
    ensures FrontBelow(MoveFront(list, k), n)
  {
  }

  lemma BeginBounded(h: Head, t: Tables, w: Work, goal: Goal)
    requires Working(h, t, w, goal)
    ensures Bounded(BeginSymbol(h, t, w, goal))
  {
    hide Used, FrontBelow;
    var w' := if w.groupPos == 0 then w.(groupNo := w.groupNo + 1, groupPos := 50) else w;
    if w'.groupNo < |t.selector| {
      var len := t.len[t.selector[w'.groupNo]];
      assert MinLen(len) <= len[0];
    }
  }

  /** The work once byte number nn of the list has been stored. */
  ghost function AfterByte(t: Tables, w: Work, nn: nat): Work
    requires nn < |w.list|
  {
    var uc := Unseq(t, w.list[nn]);
    w.(list := MoveFront(w.list, nn), bytes := w.bytes + [uc], unzftab := Bump(w.unzftab, uc, 1))
  }

  lemma ByteKeepsWorking(h: Head, t: Tables, w: Work, nn: nat)
    requires Working(h, t, w, AnySymbol) && nn < |Used(t.inUse, 256)| && |w.bytes| < 100000 * h.level
    ensures nn < |w.list| && Working(h, t, AfterByte(t, w, nn), AnySymbol)
  {
    hide Used, MoveFront, Unseq;
    MoveKeepsFront(w.list, |Used(t.inUse, 256)|, nn);
  }

  /** Within the alphabet, a rank is an index into the listed part. */
  lemma ByteBounded(h: Head, t: Tables, w: Work, nn: nat)
    requires Working(h, t, w, AnySymbol) && nn < |Used(t.inUse, 256)|
    ensures Bounded(TakeByte(h, t, w, nn))
  {
    hide Used, BeginSymbol, MoveFront, Unseq;
    if |w.bytes| < 100000 * h.level {
      ByteKeepsWorking(h, t, w, nn);
      BeginBounded(h, t, AfterByte(t, w, nn), AnySymbol);
    }
  }

  /** The guard on N keeps both N and es far below 2^31. */
  lemma DigitBounded(h: Head, t: Tables, w: Work, es: int, n: nat, digit: nat)
    requires Working(h, t, w, AnySymbol) && digit <= RUNB && 1 <= n <= 0x400000 && -1 <= es <= 2 * n - 3
    ensures Bounded(TakeDigit(h, t, w, es, n, digit))
  {
    hide Used, BeginSymbol, FrontBelow;
    if n < 2 * 1024 * 1024 {
      BeginBounded(h, t, w, RunDigit(es + (digit + 1) * n, n * 2));
    }
  }

  lemma FinishBounded(h: Head, t: Tables, w: Work)
    requires Working(h, t, w, AnySymbol)
    ensures Bounded(Finish(h, w))
  {
  }

  lemma NextBounded(h: Head, t: Tables, w: Work, sym: nat)
    requires Working(h, t, w, AnySymbol) && sym <= |Used(t.inUse, 256)| + 1
    ensures Bounded(NextSymbol(h, t, w, sym))
  {
    hide Used, Bounded, TakeDigit, TakeByte, Finish, FrontBelow;
    FinishBounded(h, t, w);
    if sym <= RUNB {
      DigitBounded(h, t, w, -1, 1, sym);
    } else if sym < |Used(t.inUse, 256)| + 1 {
      ByteBounded(h, t, w, sym - 1);
    }
  }

  /** The work once a run of k front bytes has been stored. */
  ghost function AfterRun(t: Tables, w: Work, k: nat): Work {
    var uc := Unseq(t, Front(w));
    w.(bytes := w.bytes + Repeat(uc, k), unzftab := Bump(w.unzftab, uc, k))
  }

  lemma RunKeepsWorking(h: Head, t: Tables, w: Work, k: nat)
    requires Working(h, t, w, AnySymbol) && |w.bytes| + k <= 100000 * h.level
    ensures Working(h, t, AfterRun(t, w, k), AnySymbol)
  {
    hide Used, FrontBelow, LengthRows, Unseq, Repeat;
  }

  lemma RunBounded(h: Head, t: Tables, w: Work, es: int, sym: nat)
    requires Working(h, t, w, AnySymbol) && sym <= |Used(t.inUse, 256)| + 1
    ensures Bounded(EndRun(h, t, w, es, sym))
  {
    hide Used, NextSymbol, FrontBelow, Unseq, Repeat;
    var k: nat := if es + 1 < 0 then 0 else es + 1;
    if |w.bytes| + k <= 100000 * h.level {
      RunKeepsWorking(h, t, w, k);
      NextBounded(h, t, AfterRun(t, w, k), sym);
    }
  }

  lemma GotBounded(h: Head, t: Tables, w: Work, goal: Goal, sym: nat)
    requires Working(h, t, w, goal) && sym <= |Used(t.inUse, 256)| + 1
    ensures Bounded(GotSymbol(h, t, w, goal, sym))
  {
    hide Used, NextSymbol, TakeDigit, EndRun, Bounded, FrontBelow, LengthRows;
    match goal
    case AnySymbol => NextBounded(h, t, w, sym);
    case RunDigit(es, n) =>
      if sym <= RUNB {
        DigitBounded(h, t, w, es, n, sym);
      } else {
        RunBounded(h, t, w, es, sym);
      }
  }

  lemma TableInUse(h: Head, t: Tables, w: Work, goal: Goal)
    requires Working(h, t, w, goal) && 0 <= w.groupNo
    ensures w.groupNo < |t.selector| && t.selector[w.groupNo] < |t.len|
    ensures |t.inUse| == 256 && |t.len[t.selector[w.groupNo]]| == |Used(t.inUse, 256)| + 2
  {
    hide Used, FrontBelow;
  }

  lemma OneMoreBit(h: Head, t: Tables, w: Work, goal: Goal, zn: Pos, zvec: nat)
    requires Working(h, t, w, goal) && 0 <= w.groupNo && zn <= 20 && zvec < Pow2(zn)
    ensures Bounded(MtfNext(h, t, w, goal, zn + 1, zvec))
  {
    hide Used, FrontBelow, LengthRows;
  }

  /** The tables are only read at entries that the code lengths filled in. */
  lemma TryBounded(h: Head, t: Tables, w: Work, goal: Goal, zn: Pos, zvec: nat)
    requires Working(h, t, w, goal) && 0 <= w.groupNo && zvec < Pow2(zn)
    ensures Bounded(TrySymbol(h, t, w, goal, zn, zvec))
  {
    hide Used, GotSymbol, LimitFor, BaseFor, PermFor, Working, Bounded, Pow2;
    TableInUse(h, t, w, goal);
    StopBounded();
    var len := t.len[t.selector[w.groupNo]];
    if zn <= 20 {
      OneMoreBit(h, t, w, goal, zn, zvec);
      if zvec <= LimitFor(len, zn) {
        EntryIsFilled(len, zn, zvec);
        var k := zvec - BaseFor(len, zn);
        if 0 <= k < MAX_ALPHA_SIZE {
          EntryIsSymbol(len, k);
          GotBounded(h, t, w, goal, PermFor(len)[k]);
        }
      }
    }
  }

  lemma StopBounded()
    ensures Bounded(Stop(DataError))
  {
  }

  // ---------- One step ----------

  lemma Shifted(k: nat, crc: nat, v: nat)
    requires crc < Pow2(8 * k) && v < 256
    ensures crc * 256 + v < Pow2(8 * (k + 1))
  {
    Pow2Add(8 * k, 8);
    Pow2Values();
  }

  lemma Doubled(k: nat, zvec: nat, v: nat)
    requires zvec < Pow2(k) && v < 2
    ensures zvec * 2 + v < Pow2(k + 1)
  {
  }

  lemma RowBounded(h: Head, inUse16: seq<bool>, inUse: seq<bool>)
    requires 1 <= h.level <= 9 && |inUse16| == 16 && |inUse| % 16 == 0 && |inUse| <= 256
    ensures Bounded(EnterRow(h, inUse16, inUse))
  {
    hide Used;
  }

  lemma SelectorsBounded(ranks: seq<nat>, pos: seq<nat>, n: nat)
    requires forall i :: 0 <= i < |ranks| ==> ranks[i] < |pos|
    requires forall i :: 0 <= i < |pos| ==> pos[i] < n
    ensures forall i :: 0 <= i < |ranks| ==> Unrank(ranks, pos)[i] < n
    decreases |ranks|
  {
    if ranks != [] {
      SelectorsBounded(ranks[1..], MoveFront(pos, ranks[0]), n);
    }
  }

  lemma Selector3Bounded(h: Head, inUse: seq<bool>, nGroups: nat, nSelectors: nat, ranks: seq<nat>, j: nat, v: nat)
    requires Bounded(Selector3(h, inUse, nGroups, nSelectors, ranks, j))
    ensures Bounded(AfterSelector3(h, inUse, nGroups, nSelectors, ranks, j, v))
  {
    hide Used, Unrank;
    if v == 0 && |ranks| + 1 == nSelectors {
      SelectorsBounded(ranks + [j], Iota(nGroups), nGroups);
    }
  }

  lemma Coding2Bounded(h: Head, inUse: seq<bool>, nGroups: nat, selector: seq<nat>, len: seq<seq<Len>>, row: seq<Len>, curr: Len, v: nat)
    requires Bounded(Coding2(h, inUse, nGroups, selector, len, row, curr))
    ensures Bounded(AfterCoding2(h, inUse, nGroups, selector, len, row, curr, v))
  {
    hide Used, BeginSymbol;
    var row' := row + [curr];
    var t := Tables(inUse, selector, len + [row']);
    if v == 0 && |row'| == |Used(inUse, 256)| + 2 && |len| + 1 == nGroups {
      BeginBounded(h, t, StartWork(), AnySymbol);
    }
  }

  lemma WordBounded(s: State, v: nat)
    requires (s.Bcrc? || s.OrigPtr? || s.Ccrc?) && Bounded(s) && v < 256
    ensures Bounded(Step(s, v))
  {
    hide Used, Pow2;
    match s
    case Bcrc(_, k, crc) => Shifted(k - 1, crc, v);
    case OrigPtr(h, k) => Shifted(k - 1, h.origPtr, v);
    case Ccrc(k, crc) => Shifted(k - 1, crc, v);
  }

  lemma SymbolBounded(s: State, v: nat)
    requires (s.MtfFirst? || s.MtfNext?) && Bounded(s) && v < Pow2(Need(s))
    ensures Bounded(Step(s, v))
  {
    hide Used, TrySymbol, Working;
    match s
    case MtfFirst(h, t, w, goal, zn) => TryBounded(h, t, w, goal, zn, v);
    case MtfNext(h, t, w, goal, zn, zvec) =>
      Doubled(zn - 1, zvec, v);
      TryBounded(h, t, w, goal, zn, zvec * 2 + v);
  }

  lemma SelectorBounded(s: State, v: nat)
    requires (s.Selector1? || s.Selector2? || s.Selector3?) && Bounded(s) && v < Pow2(Need(s))
    ensures Bounded(Step(s, v))
  {
    hide Used, AfterSelector3, Pow2;
    Powers();
    match s
    case Selector3(h, inUse, nGroups, nSelectors, ranks, j) => Selector3Bounded(h, inUse, nGroups, nSelectors, ranks, j, v);
    case _ =>
  }

  lemma CodingBounded(s: State, v: nat)
    requires (s.Coding1? || s.Coding2? || s.Coding3?) && Bounded(s)
    ensures Bounded(Step(s, v))
  {
    hide Used, AfterCoding2, LengthRows;
    match s
    case Coding2(h, inUse, nGroups, selector, len, row, curr) => Coding2Bounded(h, inUse, nGroups, selector, len, row, curr, v);
    case _ =>
  }

  lemma Powers()
    ensures Pow2(0) == 1 && Pow2(8) == 256 && Pow2(15) == 32768
  {
    Pow2Values();
    assert Pow2(16) == 2 * Pow2(15);
  }

  lemma RowsBounded(s: State, v: nat)
    requires s.Mapping1? && Bounded(s)
    ensures Bounded(Step(s, v))
  {
    hide Used, EnterRow, Pow2, Working, LengthRows;
    if |s.inUse16| == 15 { RowBounded(s.h, s.inUse16 + [v == 1], []); }
  }

  lemma MapBounded(s: State, v: nat)
    requires s.Mapping2? && Bounded(s)
    ensures Bounded(Step(s, v))
  {
    hide Used, EnterRow, Pow2, Working, LengthRows;
    if s.j == 15 { RowBounded(s.h, s.inUse16, s.inUse + [v == 1]); }
  }

  lemma StepBounded(s: State, v: nat)
    requires Reads(s) && Bounded(s) && v < Pow2(Need(s))
    ensures Bounded(Step(s, v))
  {
    hide Used, EnterRow, Pow2, Working, LengthRows;
    Powers();
    if s.MtfFirst? || s.MtfNext? {
      SymbolBounded(s, v);
    } else if s.Bcrc? || s.OrigPtr? || s.Ccrc? {
      WordBounded(s, v);
    } else if s.Selector1? || s.Selector2? || s.Selector3? {
      SelectorBounded(s, v);
    } else if s.Coding1? || s.Coding2? || s.Coding3? {
      CodingBounded(s, v);
    } else if s.Mapping1? {
      RowsBounded(s, v);
    } else if s.Mapping2? {
      MapBounded(s, v);
    }
  }

  /** On every input: from a bounded state, such as the first, only bounded
      states are reached. In none of them has the machine stopped undefined. */
  lemma {:induction false} AlwaysBounded(s: State, bits: Bits)
    requires Bounded(s)
    ensures Bounded(Advance(s, bits).0) && Advance(s, bits).0 != Stop(Undefined)
    decreases |bits|
  {
    hide Step, Bounded;
    if Reads(s) && |bits| >= Need(s) {
      var n := Need(s);
      FromBitsBound(bits[..n]);
      StepBounded(s, FromBits(bits[..n]));
      AlwaysBounded(Step(s, FromBits(bits[..n])), bits[n..]);
    }
    NotUndefined(Advance(s, bits).0);
  }

  lemma NotUndefined(s: State)
    ensures Bounded(s) ==> s != Stop(Undefined)
  {
  }
}
