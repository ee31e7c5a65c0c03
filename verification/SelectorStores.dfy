/** Where the decoder stores selectors. selectorMtf and selector hold
    BZ_MAX_SELECTORS bytes (bzlib_private.h, 125 and 402-403), and nSelectors is
    a 15-bit count that is only checked to be positive (decompress.c, 289-300). */
module SelectorStores {
  import opened Arith
  import opened Bits
  import opened Rotations
  import opened MoveToFront
  import opened GenerateMtf
  import opened BlockImage
  import opened DecoderMachine
  import opened DecoderBounds
  import opened DecodeImage

  const BZ_MAX_SELECTORS := 18002

  /** Having read the first n of the bits, and then a zero, the decoder stores
      selectorMtf[k]. */
  ghost predicate StoresAt(s: State, bits: Bits, n: nat, k: nat) {
    && n < |bits| && !bits[n]
    && var r := Advance(s, bits[..n]); r.1 == [] && r.0.Selector3? && |r.0.ranks| == k
  }

  /** Whatever the rest of a block is, its selectors stay within their array. */
  ghost predicate StoresInBounds(s: State) {
    forall bits: Bits, n: nat, k: nat :: StoresAt(s, bits, n, k) ==> k < BZ_MAX_SELECTORS
  }

  // ---------- The count stays what was announced ----------

  ghost predicate Announced(s: State, v: nat) {
    match s
    case Selector3(_, _, _, nSelectors, _, _) => nSelectors == v
    case Coding1(_, _, _, _, _) => true
    case Coding2(_, _, _, _, _, _, _) => true
    case Coding3(_, _, _, _, _, _, _) => true
    case MtfFirst(_, _, _, _, _) => true
    case MtfNext(_, _, _, _, _, _) => true
    case Output(_, _, _) => true
    case Stop(_) => true
    case _ => false
  }

  lemma TryAnnounced(h: Head, t: Tables, w: Work, goal: Goal, zn: Pos, zvec: nat, v: nat)
    ensures Announced(TrySymbol(h, t, w, goal, zn, zvec), v)
  {
    hide LimitFor, BaseFor, PermFor, Unseq, MoveFront, InRange;
  }

  lemma StepAnnounced(s: State, bits: nat, v: nat)
    requires Reads(s) && Announced(s, v)
    ensures Announced(Step(s, bits), v)
  {
    hide TrySymbol, Unrank;
    match s
    case MtfFirst(h, t, w, goal, zn) => TryAnnounced(h, t, w, goal, zn, bits, v);
    case MtfNext(h, t, w, goal, zn, zvec) => TryAnnounced(h, t, w, goal, zn, zvec * 2 + bits, v);
    case _ =>
  }

  lemma {:induction false} RunAnnounced(s: State, bits: Bits, v: nat)
    requires Announced(s, v)
    ensures Announced(Advance(s, bits).0, v)
    decreases |bits|
  {
    hide Step, Announced;
    if Reads(s) && |bits| >= Need(s) {
      StepAnnounced(s, FromBits(bits[..Need(s)]), v);
      RunAnnounced(Step(s, FromBits(bits[..Need(s)])), bits[Need(s)..], v);
    }
  }

  /** No store goes beyond the announced count. */
  lemma StoreBelowCount(s: State, v: nat, bits: Bits, n: nat, k: nat)
    requires Announced(s, v) && Bounded(s) && StoresAt(s, bits, n, k)
    ensures k < v
  {
    hide Advance;
    RunAnnounced(s, bits[..n], v);
    AlwaysBounded(s, bits[..n]);
  }

  // ---------- Zeros are ranks of zero ----------

  lemma ZeroStep(h: Head, inUse: seq<bool>, nGroups: nat, v: nat, n: nat)
    requires n + 1 < v
    ensures Step(Selector3(h, inUse, nGroups, v, Repeat(0, n), 0), 0) == Selector3(h, inUse, nGroups, v, Repeat(0, n + 1), 0)
  {
    assert Repeat(0, n) + [0] == Repeat(0, n + 1);
  }

  lemma {:induction false} ZeroRanks(h: Head, inUse: seq<bool>, nGroups: nat, v: nat, m: nat, n: nat)
    requires m <= n < v
    ensures Reaches(Selector3(h, inUse, nGroups, v, Repeat(0, m), 0), Nothing(n - m), Selector3(h, inUse, nGroups, v, Repeat(0, n), 0))
    decreases n - m
  {
    hide Reaches, Step;
    var s := Selector3(h, inUse, nGroups, v, Repeat(0, m), 0);
    if m == n {
      ReachNothing(s);
    } else {
      ZeroStep(h, inUse, nGroups, v, m);
      ReachBit(s, false);
      ZeroRanks(h, inUse, nGroups, v, m + 1, n);
      ReachThen(s, [false], Step(s, 0), Nothing(n - m - 1), Selector3(h, inUse, nGroups, v, Repeat(0, n), 0));
      assert [false] + Nothing(n - m - 1) == Nothing(n - m);
    }
  }

  /** A run that leads to a selector is a run that stores it. */
  lemma ReachStores(s: State, bits: Bits, t: State)
    requires Reaches(s, bits, t) && t.Selector3?
    ensures StoresAt(s, bits + [false], |bits|, |t.ranks|)
  {
    assert (bits + [false])[..|bits|] == bits + [];
    assert Advance(s, bits + []) == Advance(t, []);
  }

  /** Every selector store of a block is in bounds, whatever follows the count,
      exactly when the value read at BZ_X_SELECTOR_2 is at most 18002. */
  lemma InBoundsIffCounted(s: State, v: nat)
    requires s.Selector2? && Bounded(s) && v < 32768
    ensures StoresInBounds(Step(s, v)) <==> v <= BZ_MAX_SELECTORS
  {
    hide Advance, StoresAt;
    var t := Step(s, v);
    if v <= BZ_MAX_SELECTORS {
      forall bits: Bits, n: nat, k: nat | StoresAt(t, bits, n, k) ensures k < BZ_MAX_SELECTORS {
        StoreBelowCount(t, v, bits, n, k);
      }
    } else {
      var rest := Nothing(BZ_MAX_SELECTORS);
      var last := Selector3(s.h, s.inUse, s.nGroups, v, Repeat(0, BZ_MAX_SELECTORS), 0);
      assert Repeat(0, 0) == [];
      ZeroRanks(s.h, s.inUse, s.nGroups, v, 0, BZ_MAX_SELECTORS);
      ReachStores(t, rest, last);
    }
  }

  // ---------- A stream that does it ----------

  function OneByte(): seq<bool> { [true] + Nothing(255) }

  /** A stream header, a block header, a map of one byte, two tables, 18003
      selectors, and their ranks in unary. */
  ghost function Overlong(): Bits {
    StreamHeader(9) + (HeadBits(0, 0) + ((HeadFrom(OneByte(), 0) + RowsFrom(OneByte(), 0))
      + (ToBits(2, 3) + (ToBits(BZ_MAX_SELECTORS + 1, 15) + Nothing(BZ_MAX_SELECTORS)))))
  }

  /** From the first bit of this stream the decoder comes to store selector
      number 18002, one beyond the end of the array. */
  lemma OverlongStores()
    ensures StoresAt(Magic(1), Overlong() + [false], |Overlong()|, BZ_MAX_SELECTORS)
  {
    hide Reaches, Step, ToBits, StoresAt, StreamHeader, HeadBits, HeadFrom, RowsFrom, Pow2;
    var u, v := OneByte(), BZ_MAX_SELECTORS + 1;
    var h := Head(9, 0, false, 0);
    UsedAt(u, 0, 256);
    SmallPowers();
    var s1, s2, s3 := BlkHdr(9, 1), Mapping1(h, []), Selector1(h, u);
    var s4, s5 := Selector2(h, u, 2), Selector3(h, u, 2, v, [], 0);
    var s6 := Selector3(h, u, 2, v, Repeat(0, BZ_MAX_SELECTORS), 0);
    ReadStreamHeader(9);
    ReadBlockHead(9, 0, 0);
    ReadMap(h, u);
    SelectorSteps(h, u, v);
    ReachBits(s3, 2, 3);
    ReachBits(s4, v, 15);
    assert Repeat(0, 0) == [];
    ZeroRanks(h, u, 2, v, 0, BZ_MAX_SELECTORS);
    var b5 := Nothing(BZ_MAX_SELECTORS);
    var b4 := ToBits(v, 15) + b5;
    var b3 := ToBits(2, 3) + b4;
    var b2 := HeadFrom(u, 0) + RowsFrom(u, 0) + b3;
    ReachThen(s4, ToBits(v, 15), s5, b5, s6);
    ReachThen(s3, ToBits(2, 3), s4, b4, s6);
    ReachThen(s2, HeadFrom(u, 0) + RowsFrom(u, 0), s3, b3, s6);
    ReachThen(s1, HeadBits(0, 0), s2, b2, s6);
    ReachThen(Magic(1), StreamHeader(9), s1, HeadBits(0, 0) + b2, s6);
    ReachStores(Magic(1), Overlong(), s6);
  }

  lemma SelectorSteps(h: Head, u: seq<bool>, v: nat)
    requires v >= 1
    ensures Step(Selector1(h, u), 2) == Selector2(h, u, 2)
    ensures Step(Selector2(h, u, 2), v) == Selector3(h, u, 2, v, [], 0)
  {
  }
}
