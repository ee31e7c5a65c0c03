/** What holds of the decoder machine on every input, valid or not. */
module DecoderInvariant {
  import opened Arith
  import opened Bits
  import opened Rotations
  import opened MoveToFront
  import opened GenerateMtf
  import opened DecoderMachine
  import opened Histogram

  ghost predicate Filled(len: seq<seq<Len>>) {
    forall t :: 0 <= t < |len| ==> len[t] != []
  }

  /** What the stream and block headers may announce. */
  ghost predicate Announced(h: Head) {
    1 <= h.level <= 9 && h.origPtr <= 10 + 100000 * h.level
  }

  ghost predicate Fits(h: Head, n: nat) {
    Announced(h) && n <= 100000 * h.level
  }

  /** Two to six tables, and at least one group. */
  ghost predicate Tabled(t: Tables) {
    2 <= |t.len| <= 6 && 1 <= |t.selector| && Filled(t.len)
  }

  /** Everything announced is in its range; blocks stay within the level's size,
      no GET_BITS asks for more than 20 bits, and a block is delivered only with
      origPtr inside it. */
  ghost predicate Sane(s: State) {
    match s
    case BlkHdr(level, _) => 1 <= level <= 9
    case Bcrc(level, _, _) => 1 <= level <= 9
    case RandBit(level, _) => 1 <= level <= 9
    case OrigPtr(h, _) => 1 <= h.level <= 9
    case Mapping1(h, _) => Announced(h)
    case Mapping2(h, _, _, _) => Announced(h)
    case Selector1(h, _) => Announced(h)
    case Selector2(h, _, nGroups) => Announced(h) && 2 <= nGroups <= 6
    case Selector3(h, _, nGroups, nSelectors, _, j) => Announced(h) && 2 <= nGroups <= 6 && 1 <= nSelectors && j < nGroups
    case Coding1(h, _, nGroups, selector, len) => Announced(h) && CodingRange(nGroups, selector, len)
    case Coding2(h, _, nGroups, selector, len, _, _) => Announced(h) && CodingRange(nGroups, selector, len)
    case Coding3(h, _, nGroups, selector, len, _, _) => Announced(h) && CodingRange(nGroups, selector, len)
    case MtfFirst(h, t, w, _, zn) => Tabled(t) && zn <= 20 && Fits(h, |w.bytes|)
    case MtfNext(h, t, w, _, _, _) => Tabled(t) && Fits(h, |w.bytes|)
    case Output(h, bytes, _) => Fits(h, |bytes|) && h.origPtr < |bytes|
    case _ => true
  }

  ghost predicate CodingRange(nGroups: nat, selector: seq<nat>, len: seq<seq<Len>>) {
    2 <= nGroups <= 6 && 1 <= |selector| && |len| < nGroups && Filled(len)
  }

  lemma SaneNeed(s: State)
    requires Sane(s)
    ensures Need(s) <= 20
  {
  }

  lemma BeginSane(h: Head, t: Tables, w: Work, goal: Goal)
    requires Tabled(t) && Fits(h, |w.bytes|)
    ensures Sane(BeginSymbol(h, t, w, goal))
  {
  }

  lemma ByteSane(h: Head, t: Tables, w: Work, nn: nat)
    requires Tabled(t) && Fits(h, |w.bytes|)
    ensures Sane(TakeByte(h, t, w, nn))
  {
    hide BeginSymbol, Unseq, MoveFront;
    if |w.bytes| < 100000 * h.level && nn < |w.list| {
      var uc := Unseq(t, w.list[nn]);
      BeginSane(h, t, w.(list := MoveFront(w.list, nn), bytes := w.bytes + [uc], unzftab := Bump(w.unzftab, uc, 1)), AnySymbol);
    }
  }

  lemma NextSane(h: Head, t: Tables, w: Work, sym: nat)
    requires Tabled(t) && Fits(h, |w.bytes|)
    ensures Sane(NextSymbol(h, t, w, sym))
  {
    hide BeginSymbol, TakeByte, InRange;
    BeginSane(h, t, w, RunDigit(-1 + (sym + 1) * 1, 2));
    if sym >= 1 { ByteSane(h, t, w, sym - 1); }
  }

  lemma RunSane(h: Head, t: Tables, w: Work, es: int, sym: nat)
    requires Tabled(t) && Fits(h, |w.bytes|)
    ensures Sane(EndRun(h, t, w, es, sym))
  {
    hide NextSymbol, Unseq;
    var uc := Unseq(t, Front(w));
    var k: nat := if es + 1 < 0 then 0 else es + 1;
    if |w.bytes| + k <= 100000 * h.level {
      NextSane(h, t, w.(bytes := w.bytes + Repeat(uc, k), unzftab := Bump(w.unzftab, uc, k)), sym);
    }
  }

  lemma SymbolSane(h: Head, t: Tables, w: Work, goal: Goal, sym: nat)
    requires Tabled(t) && Fits(h, |w.bytes|)
    ensures Sane(GotSymbol(h, t, w, goal, sym))
  {
    hide NextSymbol, BeginSymbol, EndRun;
    match goal
    case AnySymbol => NextSane(h, t, w, sym);
    case RunDigit(es, n) =>
      BeginSane(h, t, w, RunDigit(es + (sym + 1) * n, n * 2));
      RunSane(h, t, w, es, sym);
  }

  lemma TrySane(h: Head, t: Tables, w: Work, goal: Goal, zn: Pos, zvec: nat)
    requires Tabled(t) && Fits(h, |w.bytes|)
    ensures Sane(TrySymbol(h, t, w, goal, zn, zvec))
  {
    hide GotSymbol, LimitFor, BaseFor, PermFor;
    if 0 <= w.groupNo < |t.selector| && t.selector[w.groupNo] < |t.len| {
      var len := t.len[t.selector[w.groupNo]];
      var k := zvec - BaseFor(len, zn);
      if 0 <= k < |PermFor(len)| {
        SymbolSane(h, t, w, goal, PermFor(len)[k]);
      }
    }
  }

  lemma RowSane(h: Head, inUse16: seq<bool>, inUse: seq<bool>)
    requires Announced(h)
    ensures Sane(EnterRow(h, inUse16, inUse))
  {
    hide NextRow, Used;
  }

  lemma RankSane(h: Head, inUse: seq<bool>, nGroups: nat, nSelectors: nat, ranks: seq<nat>, j: nat, v: nat)
    requires Announced(h) && 2 <= nGroups <= 6 && 1 <= nSelectors && j < nGroups
    ensures Sane(AfterSelector3(h, inUse, nGroups, nSelectors, ranks, j, v))
  {
    hide Unrank;
  }

  lemma CodingSane(s: State, v: nat)
    requires (s.Coding1? || s.Coding2? || s.Coding3?) && Sane(s)
    ensures Sane(Step(s, v))
  {
    hide BeginSymbol, Used;
    if s.Coding2? && |s.len| + 1 == s.nGroups {
      BeginSane(s.h, Tables(s.inUse, s.selector, s.len + [s.row + [s.curr]]), StartWork(), AnySymbol);
    }
  }

  lemma StepSane(s: State, v: nat)
    requires Reads(s) && Sane(s)
    ensures Sane(Step(s, v))
  {
    hide TrySymbol, BeginSymbol, EnterRow, AfterSelector3, Filled;
    match s
    case Mapping1(h, inUse16) => RowSane(h, inUse16 + [v == 1], []);
    case Mapping2(h, inUse16, inUse, _) => RowSane(h, inUse16, inUse + [v == 1]);
    case Selector3(h, inUse, nGroups, nSelectors, ranks, j) => RankSane(h, inUse, nGroups, nSelectors, ranks, j, v);
    case Coding1(_, _, _, _, _) => CodingSane(s, v);
    case Coding2(_, _, _, _, _, _, _) => CodingSane(s, v);
    case Coding3(_, _, _, _, _, _, _) => CodingSane(s, v);
    case MtfFirst(h, t, w, goal, zn) => TrySane(h, t, w, goal, zn, v);
    case MtfNext(h, t, w, goal, zn, zvec) => TrySane(h, t, w, goal, zn, zvec * 2 + v);
    case _ =>
  }

  /** On every input, in every state reached. */
  lemma {:induction false} AlwaysSane(s: State, bits: Bits)
    requires Sane(s)
    ensures Sane(Advance(s, bits).0)
    decreases |bits|
  {
    hide Step, Sane;
    if Reads(s) && |bits| >= Need(s) {
      StepSane(s, FromBits(bits[..Need(s)]));
      AlwaysSane(Step(s, FromBits(bits[..Need(s)])), bits[Need(s)..]);
    }
  }
}
