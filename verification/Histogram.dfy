/** Byte counts of a block, as unzftab and cftab hold them. */
module Histogram {
  import opened Arith
  import opened CountingSort
  import opened Rotations
  import opened Bits
  import opened MoveToFront
  import opened DecoderMachine

  function Occurrences(b: Block, c: nat): nat { |Positions(b, c, |b|)| }

  function Hist(b: Block): (r: seq<nat>)
    ensures |r| == 256 && forall c :: 0 <= c < 256 ==> r[c] == Occurrences(b, c)
  {
    seq(256, c requires 0 <= c < 256 => Occurrences(b, c))
  }

  lemma {:induction false} PositionsOfPrefix(a: Block, b: Block, c: nat, k: nat)
    requires k <= |a| && a <= b
    ensures Positions(b, c, k) == Positions(a, c, k)
  {
    if k > 0 {
      PositionsOfPrefix(a, b, c, k - 1);
    }
  }

  lemma OccurrencesSnoc(b: Block, x: Byte, c: nat)
    ensures Occurrences(b + [x], c) == Occurrences(b, c) + (if x == c then 1 else 0)
  {
    PositionsOfPrefix(b, b + [x], c, |b|);
  }

  lemma {:induction false} HistRun(b: Block, x: Byte, k: nat)
    ensures Hist(b + Repeat(x, k)) == Hist(b)[x := Hist(b)[x] + k]
  {
    hide Occurrences;
    if k == 0 {
      assert b + Repeat(x, 0) == b;
    } else {
      HistRun(b, x, k - 1);
      var a := b + Repeat(x, k - 1);
      assert b + Repeat(x, k) == a + [x];
      forall c | 0 <= c < 256 ensures Hist(a + [x])[c] == Hist(b)[x := Hist(b)[x] + k][c] {
        OccurrencesSnoc(a, x, c);
      }
    }
  }

  /** Summing up the counts gives the bucket starts. */
  lemma {:induction false} CftabCounts(b: Block, k: nat)
    requires k <= 256
    ensures Cftab(Hist(b), k) == CountBelow(b, k, |b|)
  {
    OrderCounts(b, k, |b|);
    if k > 0 {
      CftabCounts(b, k - 1);
    }
  }

  /** On the counts of a block the decoder's range checks never fire. */
  lemma HistInRange(b: Block)
    ensures InRange(Hist(b), |b|)
  {
    forall k | 0 <= k <= 256 ensures Cftab(Hist(b), k) <= |b| {
      CftabCounts(b, k);
    }
  }

  /** A block read to its end. */
  function Done(h: Head, bytes: Block): State { Output(h, bytes, Hist(bytes)) }

  // ---------- In every reachable state ----------

  /** unzftab counts what has been decoded so far. */
  ghost predicate Counted(s: State) {
    match s
    case MtfFirst(_, _, w, _, _) => w.unzftab == Hist(w.bytes)
    case MtfNext(_, _, w, _, _, _) => w.unzftab == Hist(w.bytes)
    case Output(_, bytes, unzftab) => unzftab == Hist(bytes)
    case _ => true
  }

  lemma BeginCounted(h: Head, t: Tables, w: Work, goal: Goal)
    requires w.unzftab == Hist(w.bytes)
    ensures Counted(BeginSymbol(h, t, w, goal))
  {
    hide Hist;
  }

  /** The range checks are dead code: only origPtr can spoil the end. */
  lemma FinishChecksOrigPtr(h: Head, w: Work)
    requires w.unzftab == Hist(w.bytes)
    ensures Finish(h, w) == if h.origPtr < |w.bytes| then Done(h, w.bytes) else Stop(DataError)
  {
    HistInRange(w.bytes);
  }

  lemma ByteCounted(h: Head, t: Tables, w: Work, nn: nat)
    requires w.unzftab == Hist(w.bytes)
    ensures Counted(TakeByte(h, t, w, nn))
  {
    hide Hist, BeginSymbol, Unseq, MoveFront;
    if |w.bytes| < 100000 * h.level && nn < |w.list| {
      var uc := Unseq(t, w.list[nn]);
      HistRun(w.bytes, uc, 1);
      assert Repeat(uc, 1) == [uc];
      BeginCounted(h, t, w.(list := MoveFront(w.list, nn), bytes := w.bytes + [uc], unzftab := Bump(w.unzftab, uc, 1)), AnySymbol);
    }
  }

  lemma NextCounted(h: Head, t: Tables, w: Work, sym: nat)
    requires w.unzftab == Hist(w.bytes)
    ensures Counted(NextSymbol(h, t, w, sym))
  {
    hide Hist, BeginSymbol, TakeByte, Finish;
    FinishChecksOrigPtr(h, w);
    DigitCounted(h, t, w, -1, 1, sym);
    if sym >= 1 { ByteCounted(h, t, w, sym - 1); }
  }

  lemma DigitCounted(h: Head, t: Tables, w: Work, es: int, n: nat, sym: nat)
    requires w.unzftab == Hist(w.bytes)
    ensures Counted(TakeDigit(h, t, w, es, n, sym))
  {
    hide Hist, BeginSymbol;
    BeginCounted(h, t, w, RunDigit(es + (sym + 1) * n, n * 2));
  }

  lemma RunCounted(h: Head, t: Tables, w: Work, es: int, sym: nat)
    requires w.unzftab == Hist(w.bytes)
    ensures Counted(EndRun(h, t, w, es, sym))
  {
    hide Hist, NextSymbol, Unseq;
    var uc := Unseq(t, Front(w));
    var k: nat := if es + 1 < 0 then 0 else es + 1;
    HistRun(w.bytes, uc, k);
    NextCounted(h, t, w.(bytes := w.bytes + Repeat(uc, k), unzftab := Bump(w.unzftab, uc, k)), sym);
  }

  lemma SymbolCounted(h: Head, t: Tables, w: Work, goal: Goal, sym: nat)
    requires w.unzftab == Hist(w.bytes)
    ensures Counted(GotSymbol(h, t, w, goal, sym))
  {
    hide Hist, NextSymbol, TakeDigit, EndRun;
    match goal
    case AnySymbol => NextCounted(h, t, w, sym);
    case RunDigit(es, n) => DigitCounted(h, t, w, es, n, sym); RunCounted(h, t, w, es, sym);
  }

  lemma TryCounted(h: Head, t: Tables, w: Work, goal: Goal, zn: Pos, zvec: nat)
    requires w.unzftab == Hist(w.bytes)
    ensures Counted(TrySymbol(h, t, w, goal, zn, zvec))
  {
    hide Hist, GotSymbol, LimitFor, BaseFor, PermFor;
    if 0 <= w.groupNo < |t.selector| && t.selector[w.groupNo] < |t.len| {
      var len := t.len[t.selector[w.groupNo]];
      var k := zvec - BaseFor(len, zn);
      if 0 <= k < |PermFor(len)| {
        SymbolCounted(h, t, w, goal, PermFor(len)[k]);
      }
    }
  }

  lemma StepCounted(s: State, v: nat)
    requires Reads(s) && Counted(s)
    ensures Counted(Step(s, v))
  {
    hide Hist, TrySymbol, BeginSymbol, GotSymbol, Unrank;
    match s
    case MtfFirst(h, t, w, goal, zn) => TryCounted(h, t, w, goal, zn, v);
    case MtfNext(h, t, w, goal, zn, zvec) => TryCounted(h, t, w, goal, zn, zvec * 2 + v);
    case Coding2(h, inUse, nGroups, selector, len, row, curr) =>
      NothingCounted();
      BeginCounted(h, Tables(inUse, selector, len + [row + [curr]]), StartWork(), AnySymbol);
    case _ =>
  }

  lemma NothingCounted()
    ensures StartWork().unzftab == Hist([])
  {
  }

  /** On every input the counts stay right, so the decoder's range checks on
      unzftab and cftab never fire, whatever the stream. */
  lemma {:induction false} AlwaysCounted(s: State, bits: Bits)
    requires Counted(s)
    ensures Counted(Advance(s, bits).0)
    decreases |bits|
  {
    hide Step, Counted;
    if Reads(s) && |bits| >= Need(s) {
      StepCounted(s, FromBits(bits[..Need(s)]));
      AlwaysCounted(Step(s, FromBits(bits[..Need(s)])), bits[Need(s)..]);
    }
  }
}
