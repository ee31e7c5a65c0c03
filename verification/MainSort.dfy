/** mainGtU, mainSimpleSort and mainQSort3 (blocksort.c): sort the rotations of
    a bucket, in weak order, unless the work budget runs out. */
module MainSort {
  import opened Arith
  import opened Rotations
  import opened FallbackQSort

  const OVERSHOOT := 34
  const SMALL_THRESHOLD := 20
  const DEPTH_THRESH := 14
  const MAIN_STACK_SIZE := 100

  // ---------- The block with its overshoot ----------

  /** The block array repeats its first 34 bytes at the end. */
  ghost predicate Overshot(block: seq<nat>, b: Block) {
    && |b| > OVERSHOOT && |block| == |b| + OVERSHOOT
    && forall i {:trigger block[i]} :: 0 <= i < |block| ==> block[i] == b[i % |b|]
  }

  /** Where the bytes agree, a smaller quadrant means a rotation that is not
      larger; equal quadrants mean nothing. */
  ghost predicate QuadrantsOrder(quadrant: seq<nat>, b: Block) {
    && |b| > OVERSHOOT && |quadrant| == |b| + OVERSHOOT
    && forall p, q {:trigger quadrant[p], quadrant[q]} :: 0 <= p < |quadrant| && 0 <= q < |quadrant| ==>
         b[p % |b|] == b[q % |b|] && quadrant[p] < quadrant[q] ==> Key(b, p, |b|) <= Key(b, q, |b|)
  }

  /** Position p stands for byte t of rotation i. */
  ghost predicate StandsFor(p: nat, i: nat, t: nat, n: nat)
    requires n > 0
  {
    p % n == (i + t) % n
  }

  lemma StandsNext(p: nat, i: nat, t: nat, n: nat)
    requires n > 0 && StandsFor(p, i, t, n)
    ensures StandsFor(p + 1, i, t + 1, n)
  {
    ModPlus(p, 1, n);
    ModPlus(i + t, 1, n);
    assert i + t + 1 == i + (t + 1);
  }

  lemma StandsWrap(p: nat, i: nat, t: nat, n: nat)
    requires n > 0 && StandsFor(p, i, t, n) && p >= n
    ensures StandsFor(p - n, i, t, n)
  {
    DivDef(p - n, n);
    Distribute((p - n) / n, 1, n);
    DivUnique(p, n, (p - n) / n + 1, (p - n) % n);
  }

  lemma StandsStart(i: nat, n: nat)
    requires n > 0
    ensures StandsFor(i, i, 0, n)
  {
  }

  lemma ByteOf(block: seq<nat>, b: Block, p: nat, i: nat, t: nat)
    requires Overshot(block, b) && p < |block| && StandsFor(p, i, t, |b|)
    ensures block[p] == Char(b, i, t)
  {
  }

  // ---------- Deciding by a prefix ----------

  /** Rotations that agree on t bytes are ordered by their next byte. */
  lemma ByteDecides(b: Block, i: nat, j: nat, t: nat)
    requires b != [] && Key(b, i, t) == Key(b, j, t) && Char(b, i, t) > Char(b, j, t)
    ensures Key(b, j, |b|) <= Key(b, i, |b|)
  {
    hide Char, Key;
    var n := |b|;
    NextByte(b, i, t);
    NextByte(b, j, t);
    if t < n {
      if Key(b, i, n) < Key(b, j, n) {
        KeyPrefix(b, i, j, t + 1, n);
      }
    } else {
      KeyPrefix(b, j, i, n, t);
    }
  }

  lemma NextByte(b: Block, i: nat, t: nat)
    requires b != []
    ensures Key(b, i, t + 1) == Key(b, i, t) * 256 + Char(b, i, t)
  {
  }

  /** Rotations that agree on t bytes are ordered by what follows. */
  lemma RestDecides(b: Block, i: nat, j: nat, t: nat)
    requires b != [] && Key(b, i, t) == Key(b, j, t) && Key(b, j + t, |b|) <= Key(b, i + t, |b|)
    ensures Key(b, j, |b|) <= Key(b, i, |b|)
  {
    hide Char, Key;
    KeySplit(b, i, j, t, |b|);
    KeyPrefix(b, j, i, |b|, t + |b|);
  }

  lemma AllAgree(b: Block, i: nat, j: nat, t: nat)
    requires b != [] && t >= |b| && Key(b, i, t) == Key(b, j, t)
    ensures Key(b, i, |b|) == Key(b, j, |b|)
  {
    hide Char, Key;
    KeyPrefix(b, i, j, |b|, t);
    KeyPrefix(b, j, i, |b|, t);
  }

  // ---------- mainGtU ----------

  /** Both rotations agree on t bytes, and p1 and p2 stand for the next ones. */
  ghost predicate Tied(b: Block, i1: nat, i2: nat, t: nat, p1: nat, p2: nat)
    requires b != []
  {
    && Key(b, i1, t) == Key(b, i2, t) && StandsFor(p1, i1, t, |b|) && StandsFor(p2, i2, t, |b|)
  }

  /** The answer is right in weak order. */
  ghost predicate Decides(gt: bool, b: Block, i1: nat, i2: nat)
    requires b != []
  {
    if gt then Key(b, i2, |b|) <= Key(b, i1, |b|) else Key(b, i1, |b|) <= Key(b, i2, |b|)
  }

  /** Compare one pair of bytes. */
  method CompareByte(block: seq<nat>, p1: nat, p2: nat, ghost b: Block, ghost i1: nat, ghost i2: nat, ghost t: nat)
    returns (decided: bool, gt: bool)
    requires Overshot(block, b) && p1 < |block| && p2 < |block| && Tied(b, i1, i2, t, p1, p2)
    ensures decided ==> Decides(gt, b, i1, i2) && block[p1] != block[p2]
    ensures !decided ==> Tied(b, i1, i2, t + 1, p1 + 1, p2 + 1) && block[p1] == block[p2]
  {
    hide Char, Key;
    var c1, c2 := block[p1], block[p2];
    ByteOf(block, b, p1, i1, t);
    ByteOf(block, b, p2, i2, t);
    if c1 != c2 {
      if c1 > c2 { ByteDecides(b, i1, i2, t); } else { ByteDecides(b, i2, i1, t); }
      return true, c1 > c2;
    }
    NextByte(b, i1, t);
    NextByte(b, i2, t);
    StandsNext(p1, i1, t, |b|);
    StandsNext(p2, i2, t, |b|);
    return false, false;
  }

  lemma QuadrantDecides(quadrant: seq<nat>, b: Block, p1: nat, p2: nat, i1: nat, i2: nat, t: nat)
    requires QuadrantsOrder(quadrant, b) && p1 < |quadrant| && p2 < |quadrant| && Tied(b, i1, i2, t, p1, p2)
    requires b[p1 % |b|] == b[p2 % |b|] && quadrant[p1] < quadrant[p2]
    ensures Key(b, i1, |b|) <= Key(b, i2, |b|)
  {
    hide Char, Key;
    var n := |b|;
    KeyMod(b, p1, n);
    KeyMod(b, p2, n);
    KeyMod(b, i1 + t, n);
    KeyMod(b, i2 + t, n);
    RestDecides(b, i2, i1, t);
  }

  /** Compare a pair of bytes, then the quadrants. */
  method CompareBoth(block: seq<nat>, quadrant: seq<nat>, p1: nat, p2: nat,
                     ghost b: Block, ghost i1: nat, ghost i2: nat, ghost t: nat)
    returns (decided: bool, gt: bool)
    requires Overshot(block, b) && QuadrantsOrder(quadrant, b) && p1 < |block| && p2 < |block|
    requires Tied(b, i1, i2, t, p1, p2)
    ensures decided ==> Decides(gt, b, i1, i2)
    ensures !decided ==> Tied(b, i1, i2, t + 1, p1 + 1, p2 + 1)
    ensures decided ==> block[p1] != block[p2] || quadrant[p1] != quadrant[p2]
  {
    hide Char, Key, Tied;
    decided, gt := CompareByte(block, p1, p2, b, i1, i2, t);
    if decided { return; }
    var s1, s2 := quadrant[p1], quadrant[p2];
    if s1 < s2 { QuadrantDecides(quadrant, b, p1, p2, i1, i2, t); }
    if s2 < s1 { TiedSym(b, i1, i2, t, p1, p2); QuadrantDecides(quadrant, b, p2, p1, i2, i1, t); }
    if s1 != s2 { return true, s1 > s2; }
  }

  lemma TiedSym(b: Block, i1: nat, i2: nat, t: nat, p1: nat, p2: nat)
    requires b != [] && Tied(b, i1, i2, t, p1, p2)
    ensures Tied(b, i2, i1, t, p2, p1)
  {
    hide Key;
  }

  lemma TiedWrap(b: Block, i1: nat, i2: nat, t: nat, p1: nat, p2: nat)
    requires b != [] && Tied(b, i1, i2, t, p1, p2)
    ensures p1 >= |b| ==> Tied(b, i1, i2, t, p1 - |b|, p2)
    ensures p2 >= |b| ==> Tied(b, i1, i2, t, p1, p2 - |b|)
  {
    hide Key;
    if p1 >= |b| { StandsWrap(p1, i1, t, |b|); }
    if p2 >= |b| { StandsWrap(p2, i2, t, |b|); }
  }

  lemma TiedStart(b: Block, i1: nat, i2: nat)
    requires b != []
    ensures Tied(b, i1, i2, 0, i1, i2)
  {
  }

  lemma TiedThroughout(b: Block, i1: nat, i2: nat, t: nat, p1: nat, p2: nat)
    requires b != [] && t >= |b| && Tied(b, i1, i2, t, p1, p2)
    ensures Decides(false, b, i1, i2)
  {
    AllAgree(b, i1, i2, t);
  }

  /** The steps of the loop: eight bytes with quadrants. */
  method CompareEight(block: seq<nat>, quadrant: seq<nat>, p1: nat, p2: nat,
                      ghost b: Block, ghost i1: nat, ghost i2: nat, ghost t: nat)
    returns (decided: bool, gt: bool, ghost last: nat)
    requires Overshot(block, b) && QuadrantsOrder(quadrant, b) && p1 + 7 < |block| && p2 + 7 < |block|
    requires Tied(b, i1, i2, t, p1, p2)
    ensures decided ==> Decides(gt, b, i1, i2)
    ensures !decided ==> Tied(b, i1, i2, t + 8, p1 + 8, p2 + 8)
    ensures Flat(block, quadrant) ==> !decided
    ensures last < 8 && (!decided ==> last == 7)
  {
    hide Tied, Decides, Overshot, QuadrantsOrder;
    decided, gt, last := false, false, 7;
    Sizes(block, quadrant, b);
    for s := 0 to 8
      invariant !decided && Tied(b, i1, i2, t + s, p1 + s, p2 + s)
    {
      decided, gt := CompareBoth(block, quadrant, p1 + s, p2 + s, b, i1, i2, t + s);
      if decided { return decided, gt, s; }
    }
    last := 7;
  }

  /** Nothing in the block or the quadrants tells two positions apart. */
  ghost predicate Flat(block: seq<nat>, quadrant: seq<nat>) {
    && (forall x, y :: 0 <= x < |block| && 0 <= y < |block| ==> block[x] == block[y])
    && (forall x, y :: 0 <= x < |quadrant| && 0 <= y < |quadrant| ==> quadrant[x] == quadrant[y])
  }

  lemma Sizes(block: seq<nat>, quadrant: seq<nat>, b: Block)
    requires Overshot(block, b) && QuadrantsOrder(quadrant, b)
    ensures |b| > OVERSHOOT && |block| == |quadrant| == |b| + OVERSHOOT
  {
  }

  /** The first twelve bytes, without quadrants; i1 and i2 end behind the last
      bytes compared, or on them if they decide. */
  method CompareTwelve(i10: nat, i20: nat, block: seq<nat>, ghost quadrant: seq<nat>, ghost b: Block)
    returns (decided: bool, gt: bool, i1: nat, i2: nat)
    requires Overshot(block, b) && QuadrantsOrder(quadrant, b) && i10 < |b| + 15 && i20 < |b| + 15
    ensures i10 <= i1 && i2 - i20 == i1 - i10 && (if decided then i1 < i10 + 12 else i1 == i10 + 12)
    ensures if decided then Decides(gt, b, i10, i20) else Tied(b, i10, i20, 12, i1, i2)
    ensures Flat(block, quadrant) ==> !decided
  {
    hide Tied, Decides, Overshot, QuadrantsOrder, Flat, Key;
    Sizes(block, quadrant, b);
    decided, gt, i1, i2 := false, false, i10, i20;
    TiedStart(b, i10, i20);
    for s := 0 to 12
      invariant !decided && Tied(b, i10, i20, s, i1, i2) && i1 == i10 + s && i2 == i20 + s
    {
      if Flat(block, quadrant) { FlatAt(block, quadrant, i1, i2); }
      decided, gt := CompareByte(block, i1, i2, b, i10, i20, s);
      if decided { return; }
      i1, i2 := i1 + 1, i2 + 1;
    }
  }

  /** mainGtU: from positions up to fifteen beyond the block, all reads stay
      within the overshoot; the answer is right in weak order, and it comes
      after at most nblock + 28 bytes even for equal rotations. The budget falls
      by one for every eight bytes after the first twelve that are equal. On
      rotations that nothing tells apart, one of which starts at nblock + 14, the
      last byte of the overshoot is read: `reach` is the furthest index. */
  method MainGtU(i10: nat, i20: nat, block: seq<nat>, quadrant: seq<nat>, nblock: nat, budget: int, ghost b: Block)
    returns (gt: bool, budget': int, ghost reach: nat)
    requires Overshot(block, b) && QuadrantsOrder(quadrant, b) && nblock == |b|
    requires i10 < nblock + 15 && i20 < nblock + 15
    ensures Decides(gt, b, i10, i20)
    ensures 0 <= budget - budget' <= nblock / 8 + 2
    ensures budget' < budget ==> Key(b, i10, 12 + 8 * (budget - budget')) == Key(b, i20, 12 + 8 * (budget - budget'))
    ensures reach < nblock + OVERSHOOT
    ensures Flat(block, quadrant) && (i10 == nblock + 14 || i20 == nblock + 14) ==> reach == nblock + OVERSHOOT - 1
  {
    hide Tied, Decides, Overshot, QuadrantsOrder, Flat, Key;
    Sizes(block, quadrant, b);
    budget' := budget;
    var decided;
    var i1: nat, i2: nat;
    decided, gt, i1, i2 := CompareTwelve(i10, i20, block, quadrant, b);
    reach := Further(i1, i2);
    if decided { return; }
    reach := Further(i1, i2) - 1;
    ghost var last;
    var k := nblock + 8;
    while true
      invariant budget' <= budget && Tied(b, i10, i20, 12 + 8 * (budget - budget'), i1, i2)
      invariant i1 < nblock + 27 && i2 < nblock + 27
      invariant 0 <= k == nblock + 8 - 8 * (budget - budget') && reach < nblock + OVERSHOOT
      invariant if budget' == budget then i1 == i10 + 12 && i2 == i20 + 12
                else i10 == nblock + 14 || i20 == nblock + 14 ==> reach == nblock + OVERSHOOT - 1
      decreases k
    {
      decided, gt, last := CompareEight(block, quadrant, i1, i2, b, i10, i20, 12 + 8 * (budget - budget'));
      reach := Further(reach, Further(i1, i2) + last);
      if decided { TiedKeys(b, i10, i20, 12 + 8 * (budget - budget'), i1, i2); return; }
      i1, i2 := i1 + 8, i2 + 8;
      budget' := budget' - 1;
      TiedWrap(b, i10, i20, 12 + 8 * (budget - budget'), i1, i2);
      if i1 >= nblock { i1 := i1 - nblock; TiedWrap(b, i10, i20, 12 + 8 * (budget - budget'), i1, i2); }
      if i2 >= nblock { i2 := i2 - nblock; }
      k := k - 8;
      if k < 0 { break; }
    }
    TiedKeys(b, i10, i20, 12 + 8 * (budget - budget'), i1, i2);
    TiedThroughout(b, i10, i20, 12 + 8 * (budget - budget'), i1, i2);
    gt := false;
  }

  /** A block of one byte, before any quadrant is set, is such a case. */
  lemma ConstantIsFlat(b: Block, block: seq<nat>, quadrant: seq<nat>)
    requires Constant(b) && Overshot(block, b) && |quadrant| == |b| + OVERSHOOT
    requires forall k :: 0 <= k < |quadrant| ==> quadrant[k] == 0
    ensures Flat(block, quadrant) && QuadrantsOrder(quadrant, b)
  {
  }

  ghost function Further(x: nat, y: nat): nat { if x < y then y else x }

  lemma FlatAt(block: seq<nat>, quadrant: seq<nat>, x: nat, y: nat)
    requires Flat(block, quadrant) && x < |block| && y < |block|
    ensures block[x] == block[y]
  {
  }

  lemma TiedKeys(b: Block, i1: nat, i2: nat, t: nat, p1: nat, p2: nat)
    requires b != [] && Tied(b, i1, i2, t, p1, p2)
    ensures Key(b, i1, t) == Key(b, i2, t)
  {
  }

  // ---------- mainSimpleSort ----------

  /** The rank of every rotation, as a class to sort by. */
  ghost function Ranks(b: Block): (e: seq<nat>)
    requires b != []
    ensures |e| == |b| && forall x :: 0 <= x < |b| ==> e[x] == Key(b, x, |b|)
  {
    seq(|b|, x requires 0 <= x < |b| => Key(b, x, |b|))
  }

  /** The rotations listed in lo..hi agree on their first d bytes. */
  ghost predicate Shares(f: seq<nat>, b: Block, lo: int, hi: int, d: nat)
    requires b != [] && Range(f, lo, hi)
  {
    forall p, q {:trigger f[p], f[q]} :: lo <= p <= hi && lo <= q <= hi ==> Key(b, f[p], d) == Key(b, f[q], d)
  }

  lemma SharesStays(f: seq<nat>, g: seq<nat>, b: Block, lo: int, hi: int, d: nat)
    requires b != [] && Rearranged(f, g, lo, hi) && Shares(f, b, lo, hi, d)
    ensures Shares(g, b, lo, hi, d)
  {
    hide Rearranged, Key;
    RearrangedRange(f, g, lo, hi);
    forall p, q {:trigger g[p], g[q]} | lo <= p <= hi && lo <= q <= hi ensures Key(b, g[p], d) == Key(b, g[q], d) {
      var p' := RearrangedFrom(f, g, lo, hi, p);
      var q' := RearrangedFrom(f, g, lo, hi, q);
    }
  }

  lemma RearrangedRange(f: seq<nat>, g: seq<nat>, lo: int, hi: int)
    requires Rearranged(f, g, lo, hi)
    ensures |f| == |g| && Range(f, lo, hi) && Range(g, lo, hi)
  {
  }

  /** What the comparison d bytes further on says about the rotations. */
  lemma DecidesBefore(gt: bool, b: Block, x: nat, v: nat, d: nat)
    requires b != [] && Key(b, x, d) == Key(b, v, d) && Decides(gt, b, x + d, v + d)
    ensures Decides(gt, b, x, v)
  {
    hide Key;
    if gt { RestDecides(b, x, v, d); } else { RestDecides(b, v, x, d); }
  }

  /** The entry v is sinking; it is thought of as lying at j. For step one the
      entries lo..i are otherwise sorted, and those beyond j are not smaller. */
  ghost predicate Sinking(f: seq<nat>, g: seq<nat>, b: Block, lo: int, hi: int, i: int, j: int, h: int, d: nat)
    requires b != []
  {
    && Rearranged(f, g, lo, hi) && InBounds(g, Ranks(b)) && Shares(g, b, lo, hi, d)
    && lo <= j <= i <= hi && (h == 1 ==> Range(g, lo, i) && SunkTo(g, Ranks(b), lo, i, j))
  }

  /** For step one: lo..i is sorted but for the entry at j, which is not larger
      than those beyond it. */
  ghost predicate SunkTo(g: seq<nat>, e: seq<nat>, lo: int, i: int, j: int)
    requires Range(g, lo, i) && InBounds(g, e)
  {
    && lo <= j <= i
    && (forall p, q :: lo <= p < q <= i && p != j && q != j ==> Cls(g, e, p) <= Cls(g, e, q))
    && (forall q :: j < q <= i ==> Cls(g, e, j) <= Cls(g, e, q))
  }

  lemma SunkFurther(g: seq<nat>, e: seq<nat>, lo: int, i: int, j: int)
    requires Range(g, lo, i) && InBounds(g, e) && SunkTo(g, e, lo, i, j) && lo < j && Cls(g, e, j) <= Cls(g, e, j - 1)
    ensures InBounds(Swap(g, j, j - 1), e) && SunkTo(Swap(g, j, j - 1), e, lo, i, j - 1)
  {
    var k := Swap(g, j, j - 1);
    assert Cls(k, e, j) == Cls(g, e, j - 1) && Cls(k, e, j - 1) == Cls(g, e, j);
    forall p, q | lo <= p < q <= i && p != j - 1 && q != j - 1 ensures Cls(k, e, p) <= Cls(k, e, q) {
      assert Cls(k, e, p) == Cls(g, e, if p == j then j - 1 else p);
      assert Cls(k, e, q) == Cls(g, e, if q == j then j - 1 else q);
    }
    forall q | j - 1 < q <= i ensures Cls(k, e, j - 1) <= Cls(k, e, q) {
      assert Cls(k, e, q) == Cls(g, e, if q == j then j - 1 else q);
    }
  }

  lemma SinkStep(f: seq<nat>, g: seq<nat>, b: Block, lo: int, hi: int, i: int, j: int, h: int, d: nat)
    requires b != [] && Sinking(f, g, b, lo, hi, i, j, h, d) && h >= 1 && lo <= j - h
    requires Decides(true, b, g[j - h], g[j])
    ensures Sinking(f, Swap(g, j, j - h), b, lo, hi, i, j - h, h, d)
  {
    hide Key, Rearranged, Shares, SunkTo, Swap;
    RearrangedRange(f, g, lo, hi);
    SwapRearranges(g, Ranks(b), j, j - h, lo, hi);
    RearrangedTrans(f, g, Swap(g, j, j - h), lo, hi);
    SharesStays(g, Swap(g, j, j - h), b, lo, hi, d);
    if h == 1 {
      SunkFurther(g, Ranks(b), lo, i, j);
    }
  }

  lemma SinkEnd(f: seq<nat>, g: seq<nat>, b: Block, lo: int, hi: int, i: int, j: int, h: int, d: nat)
    requires b != [] && Sinking(f, g, b, lo, hi, i, j, h, d) && h >= 1
    requires j - h < lo || Decides(false, b, g[j - h], g[j])
    ensures Range(g, lo, i) && (h == 1 ==> SortedRange(g, Ranks(b), lo, i))
  {
    hide Key, Rearranged;
    RearrangedRange(f, g, lo, hi);
    if h == 1 {
      var e := Ranks(b);
      forall p, q | lo <= p < q <= i ensures Cls(g, e, p) <= Cls(g, e, q) {
        if q == j && p < j - 1 {
          assert Cls(g, e, p) <= Cls(g, e, j - 1) <= Cls(g, e, j);
        }
      }
    }
  }

  lemma SinkStart(f: seq<nat>, g: seq<nat>, b: Block, lo: int, hi: int, i: int, h: int, d: nat)
    requires b != [] && Rearranged(f, g, lo, hi) && InBounds(g, Ranks(b)) && Shares(g, b, lo, hi, d) && lo <= i <= hi
    requires h == 1 ==> Range(g, lo, i - 1) && SortedRange(g, Ranks(b), lo, i - 1)
    ensures Sinking(f, g, b, lo, hi, i, i, h, d)
  {
  }

  lemma SinkingFacts(f: seq<nat>, g: seq<nat>, b: Block, lo: int, hi: int, i: int, j: int, h: int, d: nat)
    requires b != [] && Sinking(f, g, b, lo, hi, i, j, h, d)
    ensures Rearranged(f, g, lo, hi) && InBounds(g, Ranks(b)) && Shares(g, b, lo, hi, d)
    ensures Range(g, lo, hi) && lo <= j <= i <= hi && |g| == |f|
    ensures forall p :: lo <= p <= hi ==> g[p] < |b| && Key(b, g[p], d) == Key(b, g[j], d)
  {
  }

  /** What comparisons read, and that they do not change. */
  ghost predicate Comparable(block: seq<nat>, quadrant: seq<nat>, b: Block) {
    Overshot(block, b) && QuadrantsOrder(quadrant, b)
  }

  lemma ComparableSize(block: seq<nat>, quadrant: seq<nat>, b: Block)
    requires Comparable(block, quadrant, b)
    ensures |b| > OVERSHOOT && b != []
  {
  }

  /** The loop test and body: if the entry h places below is larger, it moves up. */
  method ShiftOne(ptr: array<nat>, block: seq<nat>, quadrant: seq<nat>, nblock: nat, lo: int, hi: int, d: nat,
                  h: int, i: int, j: int, v: nat, budget: int, ghost b: Block, ghost f: seq<nat>, ghost g: seq<nat>)
    returns (gt: bool, budget': int)
    requires Comparable(block, quadrant, b) && nblock == |b| && d <= 15 && h >= 1 && b != []
    requires Sinking(f, g, b, lo, hi, i, j, h, d) && lo <= j - h
    requires |g| == ptr.Length && 0 <= j < ptr.Length && g == ptr[..][j := v]
    modifies ptr
    ensures budget' <= budget
    ensures gt ==> 0 <= j - h && Sinking(f, Swap(g, j, j - h), b, lo, hi, i, j - h, h, d) && ptr[..][j - h := v] == Swap(g, j, j - h)
    ensures !gt ==> ptr[..] == old(ptr[..]) && 0 <= j - h && Decides(false, b, g[j - h], g[j])
  {
    hide Rearranged, InBounds, Shares, Sinking, SortedRange, Key, Decides, Overshot, QuadrantsOrder, Ranks;
    SinkingFacts(f, g, b, lo, hi, i, j, h, d);
    assert g[j - h] == ptr[j - h] && g[j] == v;
    ghost var reach;
    gt, budget', reach := MainGtU(ptr[j - h] + d, v + d, block, quadrant, nblock, budget, b);
    DecidesBefore(gt, b, ptr[j - h], v, d);
    if gt {
      SinkStep(f, g, b, lo, hi, i, j, h, d);
      ptr[j] := ptr[j - h];
      assert ptr[..][j - h := v] == Swap(g, j, j - h);
    }
  }

  /** The loop of SinkEntry: v moves up its chain to place j. */
  method SinkLoop(ptr: array<nat>, block: seq<nat>, quadrant: seq<nat>, nblock: nat, lo: int, hi: int, d: nat,
                  h: int, i: int, v: nat, budget: int, ghost b: Block, ghost f: seq<nat>)
    returns (j: int, budget': int, ghost g: seq<nat>)
    requires Comparable(block, quadrant, b) && nblock == |b| && d <= 15 && h >= 1 && lo + h <= i <= hi
    requires b != [] && 0 <= i < ptr.Length && ptr[i] == v && Sinking(f, ptr[..], b, lo, hi, i, i, h, d)
    modifies ptr
    ensures lo <= j <= i && 0 <= j < ptr.Length && g == ptr[..][j := v] && budget' <= budget
    ensures Sinking(f, g, b, lo, hi, i, j, h, d)
    ensures lo <= j - h ==> 0 <= j - h && Decides(false, b, g[j - h], g[j])
  {
    hide Sinking, Decides, Comparable, Ranks, Swap, Key;
    budget', j, g := budget, i, ptr[..];
    SinkingFacts(f, g, b, lo, hi, i, i, h, d);
    while true
      invariant lo <= j - h && j <= i && |g| == ptr.Length && g == ptr[..][j := v]
      invariant Sinking(f, g, b, lo, hi, i, j, h, d) && budget' <= budget
      decreases j
    {
      var gt;
      gt, budget' := ShiftOne(ptr, block, quadrant, nblock, lo, hi, d, h, i, j, v, budget', b, f, g);
      if !gt { break; }
      g := ptr[..][j - h := v];
      j := j - h;
      if j <= lo + h - 1 { break; }
    }
    SinkingFacts(f, g, b, lo, hi, i, j, h, d);
  }

  /** One of the three copies: sink entry i into its chain. */
  method SinkEntry(ptr: array<nat>, block: seq<nat>, quadrant: seq<nat>, nblock: nat, lo: int, hi: int, d: nat,
                   h: int, i: int, budget: int, ghost b: Block, ghost f: seq<nat>)
    returns (budget': int)
    requires Comparable(block, quadrant, b) && nblock == |b| && d <= 15 && h >= 1 && lo + h <= i <= hi
    requires b != [] && Rearranged(f, ptr[..], lo, hi) && InBounds(ptr[..], Ranks(b)) && Shares(ptr[..], b, lo, hi, d)
    requires h == 1 ==> Range(ptr[..], lo, i - 1) && SortedRange(ptr[..], Ranks(b), lo, i - 1)
    modifies ptr
    ensures Rearranged(f, ptr[..], lo, hi) && InBounds(ptr[..], Ranks(b)) && Shares(ptr[..], b, lo, hi, d)
    ensures Range(ptr[..], lo, i) && (h == 1 ==> SortedRange(ptr[..], Ranks(b), lo, i)) && budget' <= budget
  {
    hide Rearranged, InBounds, Shares, Sinking, SortedRange, Decides, Comparable, Ranks, Swap, Key;
    SinkStart(f, ptr[..], b, lo, hi, i, h, d);
    SinkingFacts(f, ptr[..], b, lo, hi, i, i, h, d);
    var v, j := ptr[i], i;
    ghost var g;
    j, budget', g := SinkLoop(ptr, block, quadrant, nblock, lo, hi, d, h, i, v, budget, b, f);
    SinkEnd(f, g, b, lo, hi, i, j, h, d);
    SinkingFacts(f, g, b, lo, hi, i, j, h, d);
    ptr[j] := v;
    assert ptr[..] == g;
  }

  /** One pass of the shell sort, three entries between looks at the budget. */
  method ShellPass(ptr: array<nat>, block: seq<nat>, quadrant: seq<nat>, nblock: nat, lo: int, hi: int, d: nat,
                   h: int, budget: int, ghost b: Block, ghost f: seq<nat>)
    returns (budget': int, stop: bool)
    requires Comparable(block, quadrant, b) && nblock == |b| && d <= 15 && h >= 1 && lo < hi
    requires b != [] && Rearranged(f, ptr[..], lo, hi) && InBounds(ptr[..], Ranks(b)) && Shares(ptr[..], b, lo, hi, d)
    modifies ptr
    ensures Rearranged(f, ptr[..], lo, hi) && InBounds(ptr[..], Ranks(b)) && Shares(ptr[..], b, lo, hi, d)
    ensures budget' <= budget && (stop ==> budget' < 0) && Range(ptr[..], lo, hi)
    ensures !stop && h == 1 ==> SortedRange(ptr[..], Ranks(b), lo, hi)
  {
    hide Rearranged, InBounds, Shares, Ranks, Comparable;
    budget', stop := budget, false;
    RearrangedRange(f, ptr[..], lo, hi);
    var i := lo + h;
    while true
      invariant budget' <= budget && !stop && lo + h <= i
      invariant Rearranged(f, ptr[..], lo, hi) && InBounds(ptr[..], Ranks(b)) && Shares(ptr[..], b, lo, hi, d)
      invariant h == 1 ==> i <= hi + 1 && Range(ptr[..], lo, i - 1) && SortedRange(ptr[..], Ranks(b), lo, i - 1)
      decreases hi - i
    {
      if i > hi { break; }
      budget' := SinkEntry(ptr, block, quadrant, nblock, lo, hi, d, h, i, budget', b, f);
      i := i + 1;
      if i > hi { break; }
      budget' := SinkEntry(ptr, block, quadrant, nblock, lo, hi, d, h, i, budget', b, f);
      i := i + 1;
      if i > hi { break; }
      budget' := SinkEntry(ptr, block, quadrant, nblock, lo, hi, d, h, i, budget', b, f);
      i := i + 1;
      if budget' < 0 { stop := true; break; }
    }
    RearrangedRange(f, ptr[..], lo, hi);
  }

  const INCS: seq<int> := [1, 4, 13, 40, 121, 364, 1093, 3280, 9841, 29524, 88573, 265720, 797161, 2391484]

  /** mainSimpleSort: sorted, unless the budget ran out; a rearrangement always. */
  method MainSimpleSort(ptr: array<nat>, block: seq<nat>, quadrant: seq<nat>, nblock: nat, lo: int, hi: int, d: nat,
                        budget: int, ghost b: Block)
    returns (budget': int)
    requires Comparable(block, quadrant, b) && nblock == |b| && d <= 15 && hi - lo < 900000
    requires b != [] && Range(ptr[..], lo, hi) && InBounds(ptr[..], Ranks(b)) && Shares(ptr[..], b, lo, hi, d)
    modifies ptr
    ensures Rearranged(old(ptr[..]), ptr[..], lo, hi) && InBounds(ptr[..], Ranks(b))
    ensures budget' <= budget && Range(ptr[..], lo, hi)
    ensures budget' >= 0 ==> SortedRange(ptr[..], Ranks(b), lo, hi)
  {
    hide Rearranged, InBounds, Shares, Ranks, Comparable;
    ghost var f := ptr[..];
    RearrangedSelf(f, lo, hi);
    budget' := budget;
    var bigN := hi - lo + 1;
    if bigN < 2 { return; }
    var hp := 0;
    while INCS[hp] < bigN
      invariant 0 <= hp < 14 && (hp > 0 ==> INCS[hp - 1] < bigN)
      decreases 14 - hp
    {
      hp := hp + 1;
    }
    hp := hp - 1;
    while hp >= 0
      invariant -1 <= hp < 14 && budget' <= budget && Range(ptr[..], lo, hi)
      invariant Rearranged(f, ptr[..], lo, hi) && InBounds(ptr[..], Ranks(b)) && Shares(ptr[..], b, lo, hi, d)
      invariant hp < 0 ==> SortedRange(ptr[..], Ranks(b), lo, hi)
    {
      var h := INCS[hp];
      var stop;
      budget', stop := ShellPass(ptr, block, quadrant, nblock, lo, hi, d, h, budget', b, f);
      if stop { return; }
      hp := hp - 1;
    }
  }

  // ---------- mainQSort3: what is pending ----------

  /** A range whose rotations share d bytes. */
  datatype Bucket = Bucket(lo: int, hi: int, d: nat)

  function SpanOf(t: Bucket): Span { (t.lo, t.hi) }

  function Spans(ts: seq<Bucket>): (r: seq<Span>)
    ensures |r| == |ts| && forall k :: 0 <= k < |ts| ==> r[k] == SpanOf(ts[k])
  {
    seq(|ts|, k requires 0 <= k < |ts| => SpanOf(ts[k]))
  }

  function Pop(ts: seq<Bucket>): seq<Bucket>
    requires ts != []
  {
    ts[..|ts| - 1]
  }

  function Top(ts: seq<Bucket>): Bucket
    requires ts != []
  {
    ts[|ts| - 1]
  }

  lemma SpansOfPop(ts: seq<Bucket>)
    requires ts != []
    ensures Spans(Pop(ts)) == Rest(Spans(ts)) && Spans(ts)[|ts| - 1] == SpanOf(Top(ts))
  {
  }

  ghost predicate BucketShares(f: seq<nat>, b: Block, t: Bucket)
    requires b != []
  {
    Range(f, t.lo, t.hi) && t.d <= 15 && Shares(f, b, t.lo, t.hi, t.d)
  }

  ghost predicate AllShare(f: seq<nat>, b: Block, ts: seq<Bucket>)
    requires b != []
  {
    forall k :: 0 <= k < |ts| ==> BucketShares(f, b, ts[k])
  }

  /** Rearranging inside one range leaves what the others share. */
  lemma OthersShare(f: seq<nat>, g: seq<nat>, b: Block, ts: seq<Bucket>, lo: int, hi: int)
    requires b != [] && ts != [] && SpansFit(Spans(ts), lo, hi) && AllShare(f, b, ts)
    requires Rearranged(f, g, Top(ts).lo, Top(ts).hi)
    ensures AllShare(g, b, Pop(ts))
  {
    hide Key;
    var s := Top(ts);
    forall k | 0 <= k < |ts| - 1 ensures BucketShares(g, b, Pop(ts)[k]) {
      var t := ts[k];
      assert BucketShares(f, b, t);
      assert Spans(ts)[k] == (t.lo, t.hi) && Spans(ts)[|ts| - 1] == (s.lo, s.hi);
      assert forall p :: t.lo <= p <= t.hi ==> g[p] == f[p];
    }
  }

  // ---------- Splitting by the next byte ----------

  /** Byte d of every rotation, as a class to split by. */
  ghost function BytesAt(b: Block, d: nat): (e: seq<nat>)
    requires b != []
    ensures |e| == |b| && forall x :: 0 <= x < |b| ==> e[x] == Char(b, x, d)
  {
    seq(|b|, x requires 0 <= x < |b| => Char(b, x, d) as nat)
  }

  /** Smaller bytes at depth d put rotations that share d bytes in order. */
  lemma SplitOrders(g: seq<nat>, b: Block, lo: int, hi: int, d: nat, med: nat, n: int, m: int, p: int, q: int)
    requires b != [] && Split(g, BytesAt(b, d), med, lo, n, m, hi) && Range(g, lo, hi) && Shares(g, b, lo, hi, d)
    requires InBounds(g, Ranks(b)) && lo <= p < q <= hi
    ensures Cls(g, Ranks(b), p) <= Cls(g, Ranks(b), q) || q <= n || m <= p || (n < p && q < m)
  {
    hide Key, Char;
    if !(q <= n || m <= p || (n < p && q < m)) {
      assert Cls(g, BytesAt(b, d), p) < Cls(g, BytesAt(b, d), q);
      ByteDecides(b, g[q], g[p], d);
    }
  }

  /** Equal bytes at depth d make one more shared byte. */
  lemma OneDeeper(g: seq<nat>, b: Block, lo: int, hi: int, d: nat, med: nat)
    requires b != [] && Range(g, lo, hi) && Shares(g, b, lo, hi, d) && InBounds(g, BytesAt(b, d))
    requires forall p :: lo <= p <= hi ==> Cls(g, BytesAt(b, d), p) == med
    ensures Shares(g, b, lo, hi, d + 1)
  {
    hide Key, Char;
    forall p, q {:trigger g[p], g[q]} | lo <= p <= hi && lo <= q <= hi ensures Key(b, g[p], d + 1) == Key(b, g[q], d + 1) {
      assert Cls(g, BytesAt(b, d), p) == Cls(g, BytesAt(b, d), q);
      NextByte(b, g[p], d);
      NextByte(b, g[q], d);
    }
  }

  lemma Narrower(g: seq<nat>, b: Block, lo: int, hi: int, d: nat, a: int, c: int)
    requires b != [] && Range(g, lo, hi) && Shares(g, b, lo, hi, d) && Range(g, a, c) && lo <= a && c <= hi
    ensures Shares(g, b, a, c, d)
  {
    hide Key;
  }

  /** The three parts of a split range, and what each shares. */
  lemma PartsShare(g: seq<nat>, b: Block, lo: int, hi: int, d: nat, med: nat, n: int, m: int)
    requires b != [] && Split(g, BytesAt(b, d), med, lo, n, m, hi) && Range(g, lo, hi) && Shares(g, b, lo, hi, d) && d <= 14
    ensures BucketShares(g, b, Bucket(lo, n, d)) && BucketShares(g, b, Bucket(m, hi, d)) && BucketShares(g, b, Bucket(n + 1, m - 1, d + 1))
  {
    hide Shares;
    Narrower(g, b, lo, hi, d, lo, n);
    Narrower(g, b, lo, hi, d, m, hi);
    Narrower(g, b, lo, hi, d, n + 1, m - 1);
    OneDeeper(g, b, n + 1, m - 1, d, med);
  }

  /** x, y and z are l, r and c in some order. */
  predicate Permuted(x: Bucket, y: Bucket, z: Bucket, l: Bucket, r: Bucket, c: Bucket) {
    || (x == l && y == r && z == c) || (x == l && y == c && z == r) || (x == r && y == l && z == c)
    || (x == r && y == c && z == l) || (x == c && y == l && z == r) || (x == c && y == r && z == l)
  }

  /** Where l, r and c stand among the three pushed last. */
  lemma Places(ts: seq<Bucket>, x: Bucket, y: Bucket, z: Bucket, l: Bucket, r: Bucket, c: Bucket) returns (i: nat, j: nat, k: nat)
    requires Permuted(x, y, z, l, r, c)
    ensures i < |ts| + 3 && j < |ts| + 3 && k < |ts| + 3
    ensures (ts + [x, y, z])[i] == l && (ts + [x, y, z])[j] == r && (ts + [x, y, z])[k] == c
  {
    var t := |ts|;
    if x == l { i := t; } else if y == l { i := t + 1; } else { i := t + 2; }
    if x == r { j := t; } else if y == r { j := t + 1; } else { j := t + 2; }
    if x == c { k := t; } else if y == c { k := t + 1; } else { k := t + 2; }
  }

  lemma ThreeFit(ts: seq<Bucket>, lo: int, hi: int, n: int, m: int, x: Bucket, y: Bucket, z: Bucket, d: nat)
    requires ts != [] && SpansFit(Spans(ts), lo, hi) && Top(ts).lo <= n + 1 < m <= Top(ts).hi + 1
    requires Permuted(x, y, z, Bucket(Top(ts).lo, n, d), Bucket(m, Top(ts).hi, d), Bucket(n + 1, m - 1, d + 1))
    ensures SpansFit(Spans(Pop(ts) + [x, y, z]), lo, hi)
  {
    var us := Pop(ts) + [x, y, z];
    var st, su := Spans(ts), Spans(us);
    var k := |ts| - 1;
    assert st[k] == (Top(ts).lo, Top(ts).hi);
    assert forall a :: 0 <= a < k ==> su[a] == st[a];
    assert su[k] == SpanOf(x) && su[k + 1] == SpanOf(y) && su[k + 2] == SpanOf(z);
    forall a, c | 0 <= a < c < |su| ensures su[a].1 < su[c].0 || su[c].1 < su[a].0 {
      if c >= k && a < k {
        assert st[a].1 < st[k].0 || st[k].1 < st[a].0;
      }
    }
  }

  lemma ThreeOrdered(f: seq<nat>, g: seq<nat>, b: Block, ts: seq<Bucket>, lo: int, hi: int,
                     med: nat, n: int, m: int, x: Bucket, y: Bucket, z: Bucket)
    requires b != [] && ts != [] && SpansFit(Spans(ts), lo, hi) && Range(f, lo, hi) && |g| == |f|
    requires InBounds(f, Ranks(b)) && InBounds(g, Ranks(b)) && OrderedAcross(f, Ranks(b), Spans(ts), lo, hi)
    requires var t := Top(ts);
             && Rearranged(f, g, t.lo, t.hi) && Range(g, t.lo, t.hi) && Shares(g, b, t.lo, t.hi, t.d)
             && Split(g, BytesAt(b, t.d), med, t.lo, n, m, t.hi)
             && Permuted(x, y, z, Bucket(t.lo, n, t.d), Bucket(m, t.hi, t.d), Bucket(n + 1, m - 1, t.d + 1))
    ensures OrderedAcross(g, Ranks(b), Spans(Pop(ts) + [x, y, z]), lo, hi)
  {
    hide Rearranged, Split, Together, Shares, Ranks, BytesAt, Permuted;
    var t, us, e := Top(ts), Pop(ts) + [x, y, z], Ranks(b);
    var i, j, k := Places(Pop(ts), x, y, z, Bucket(t.lo, n, t.d), Bucket(m, t.hi, t.d), Bucket(n + 1, m - 1, t.d + 1));
    SpansOfPop(ts);
    assert Spans(us) == Rest(Spans(ts)) + [SpanOf(x), SpanOf(y), SpanOf(z)];
    forall p, q | lo <= p < q <= hi ensures Cls(g, e, p) <= Cls(g, e, q) || Together(Spans(us), p, q) {
      if t.lo <= p && q <= t.hi {
        SplitOrders(g, b, t.lo, t.hi, t.d, med, n, m, p, q);
        if q <= n { TogetherIn(Spans(us), i, p, q); }
        if m <= p { TogetherIn(Spans(us), j, p, q); }
        if n < p && q < m { TogetherIn(Spans(us), k, p, q); }
      } else {
        AcrossStays(f, g, e, Spans(ts), lo, hi, p, q);
        TogetherMore(Rest(Spans(ts)), [SpanOf(x), SpanOf(y), SpanOf(z)], p, q);
      }
    }
  }

  // ---------- How deep the stack gets ----------

  function BucketSize(t: Bucket): int { t.hi - t.lo + 1 }

  /** Each push of three puts the largest at the bottom: every second place
      halves the size; only ranges of more than twenty have others above. */
  ghost predicate StackThirds(ts: seq<Bucket>, total: int) {
    && (forall k :: 0 <= k < |ts| ==> BucketSize(ts[k]) * Pow2(k / 2) <= total)
    && (|ts| >= 3 ==> 21 * Pow2((|ts| - 3) / 2) <= total)
  }

  lemma ThirdsBound(ts: seq<Bucket>, total: int)
    requires StackThirds(ts, total) && total <= 900000
    ensures |ts| < 36
  {
    Pow2Values();
    if |ts| >= 3 {
      Pow2Less((|ts| - 3) / 2, 16);
    }
  }

  lemma ThirdsPop(ts: seq<Bucket>, total: int)
    requires ts != [] && StackThirds(ts, total)
    ensures StackThirds(Pop(ts), total)
  {
    hide Pow2;
    if |ts| >= 4 { Pow2Mono((|ts| - 4) / 2, (|ts| - 3) / 2); }
    forall k | 0 <= k < |ts| - 1 ensures BucketSize(Pop(ts)[k]) * Pow2(k / 2) <= total {
      assert Pop(ts)[k] == ts[k];
    }
  }

  lemma HalfStep(k: nat)
    ensures Pow2((k + 1) / 2) <= 2 * Pow2(k / 2) && Pow2((k + 2) / 2) == 2 * Pow2(k / 2) && Pow2(k / 2) <= Pow2((k + 1) / 2)
  {
    if k % 2 == 0 {
      assert (k + 1) / 2 == k / 2;
    } else {
      assert (k + 1) / 2 == k / 2 + 1;
    }
    assert (k + 2) / 2 == k / 2 + 1;
  }

  lemma ThirdsPush(ts: seq<Bucket>, total: int, x: Bucket, y: Bucket, z: Bucket)
    requires ts != [] && StackThirds(ts, total) && BucketSize(Top(ts)) > SMALL_THRESHOLD
    requires BucketSize(x) >= BucketSize(y) >= BucketSize(z) >= 0 && BucketSize(x) + BucketSize(y) + BucketSize(z) == BucketSize(Top(ts))
    ensures StackThirds(Pop(ts) + [x, y, z], total)
  {
    hide Pow2;
    var k, us, w := |ts| - 1, Pop(ts) + [x, y, z], BucketSize(Top(ts));
    var a := Pow2(k / 2);
    HalfStep(k);
    assert w * a <= total;
    MulMono(BucketSize(x), w, a);
    TwiceFits(BucketSize(y), w, Pow2((k + 1) / 2), a);
    TwiceFits(BucketSize(z), w, Pow2((k + 2) / 2), a);
    MulMono(21, w, a);
    assert us[k] == x && us[k + 1] == y && us[k + 2] == z;
    forall i | 0 <= i < |us| ensures BucketSize(us[i]) * Pow2(i / 2) <= total {
      assert i < k ==> us[i] == ts[i];
    }
    assert |us| - 3 == k;
  }

  lemma TwiceFits(s: int, w: int, p: int, a: int)
    requires 0 <= s && 2 * s <= w && 0 <= p <= 2 * a && 0 <= a
    ensures s * p <= w * a
  {
    MulMono(p, 2 * a, s);
    MulMono(2 * s, w, a);
    assert s * p == p * s && s * (2 * a) == 2 * s * a;
  }

  // ---------- Termination ----------

  function Weight(t: Bucket): int { 3 * BucketSize(t) * (16 - t.d) + 1 }

  ghost function Labour(ts: seq<Bucket>): int {
    if ts == [] then 0 else Labour(ts[..|ts| - 1]) + Weight(ts[|ts| - 1])
  }

  lemma {:induction false} LabourPositive(ts: seq<Bucket>)
    requires forall k :: 0 <= k < |ts| ==> BucketSize(ts[k]) >= 0 && ts[k].d <= 15
    ensures Labour(ts) >= 0
  {
    if ts != [] {
      LabourPositive(ts[..|ts| - 1]);
      WeightPositive(ts[|ts| - 1]);
    }
  }

  lemma WeightPositive(t: Bucket)
    requires BucketSize(t) >= 0 && t.d <= 15
    ensures Weight(t) >= 1
  {
    MulMono(0, 3 * BucketSize(t), 16 - t.d);
  }

  lemma LabourSnoc(ts: seq<Bucket>, t: Bucket)
    ensures Labour(ts + [t]) == Labour(ts) + Weight(t)
  {
    assert (ts + [t])[..|ts|] == ts;
  }

  lemma LabourDeeper(ts: seq<Bucket>, t: Bucket)
    requires ts != [] && BucketSize(Top(ts)) >= 1 && t == Bucket(Top(ts).lo, Top(ts).hi, Top(ts).d + 1)
    ensures Labour(Pop(ts) + [t]) < Labour(ts)
  {
    LabourSnoc(Pop(ts), t);
    var s := 3 * BucketSize(t);
    assert s * (16 - t.d) == s * (16 - Top(ts).d) - s;
  }

  lemma LabourThree(ts: seq<Bucket>, n: int, m: int, x: Bucket, y: Bucket, z: Bucket)
    requires ts != [] && n + 1 < m
    requires var t := Top(ts); Permuted(x, y, z, Bucket(t.lo, n, t.d), Bucket(m, t.hi, t.d), Bucket(n + 1, m - 1, t.d + 1))
    ensures Labour(Pop(ts) + [x, y, z]) < Labour(ts)
  {
    var t := Top(ts);
    var l, r, c := Bucket(t.lo, n, t.d), Bucket(m, t.hi, t.d), Bucket(n + 1, m - 1, t.d + 1);
    assert Pop(ts) + [x, y, z] == Pop(ts) + [x] + [y] + [z];
    LabourSnoc(Pop(ts), x);
    LabourSnoc(Pop(ts) + [x], y);
    LabourSnoc(Pop(ts) + [x] + [y], z);
    var u := 16 - t.d;
    var sl, sr, sc := BucketSize(l), BucketSize(r), BucketSize(c);
    assert BucketSize(t) == sl + sr + sc;
    Distribute(3 * sl, 3 * sr, u);
    Distribute(3 * sl + 3 * sr, 3 * sc, u);
    assert 3 * sc * (u - 1) == 3 * sc * u - 3 * sc;
    assert Weight(l) + Weight(r) + Weight(c) < Weight(t);
  }

  // ---------- mainQSort3 ----------

  /** What the stack loop keeps. */
  ghost predicate MainSorting(f0: seq<nat>, f: seq<nat>, b: Block, ts: seq<Bucket>, lo: int, hi: int)
    requires b != []
  {
    && Range(f, lo, hi) && Rearranged(f0, f, lo, hi) && InBounds(f, Ranks(b)) && SpansFit(Spans(ts), lo, hi)
    && OrderedAcross(f, Ranks(b), Spans(ts), lo, hi) && AllShare(f, b, ts) && StackThirds(ts, hi - lo + 1)
  }

  lemma MainTop(f0: seq<nat>, f: seq<nat>, b: Block, ts: seq<Bucket>, lo: int, hi: int)
    requires b != [] && MainSorting(f0, f, b, ts, lo, hi) && ts != [] && hi - lo < 900000
    ensures |ts| < 36 && InBounds(f, Ranks(b)) && BucketShares(f, b, Top(ts)) && BucketSize(Top(ts)) <= hi - lo + 1
    ensures Labour(ts) >= 0
  {
    hide Rearranged, InBounds, OrderedAcross, Shares;
    ThirdsBound(ts, hi - lo + 1);
    assert BucketShares(f, b, ts[|ts| - 1]);
    SpansOfPop(ts);
    forall k | 0 <= k < |ts| ensures BucketSize(ts[k]) >= 0 && ts[k].d <= 15 {
      assert BucketShares(f, b, ts[k]);
    }
    LabourPositive(ts);
  }

  lemma MainPop(f0: seq<nat>, f: seq<nat>, g: seq<nat>, b: Block, ts: seq<Bucket>, lo: int, hi: int)
    requires b != [] && MainSorting(f0, f, b, ts, lo, hi) && ts != [] && |g| == |f| && InBounds(g, Ranks(b))
    requires var t := Top(ts);
             Range(g, t.lo, t.hi) && Rearranged(f, g, t.lo, t.hi) && SortedRange(g, Ranks(b), t.lo, t.hi)
    ensures MainSorting(f0, g, b, Pop(ts), lo, hi) && Labour(Pop(ts)) < Labour(ts)
  {
    hide Rearranged, OrderedAcross, StackThirds, Weight, Ranks, Shares;
    var t := Top(ts);
    SpansOfPop(ts);
    PopSorted(f, g, Ranks(b), Spans(ts), lo, hi);
    OthersShare(f, g, b, ts, lo, hi);
    RearrangedWider(f, g, t.lo, t.hi, lo, hi);
    RearrangedTrans(f0, f, g, lo, hi);
    ThirdsPop(ts, hi - lo + 1);
    assert BucketShares(f, b, ts[|ts| - 1]);
    WeightPositive(t);
  }

  /** All bytes at depth d are equal: the same range again, one deeper. */
  lemma MainDeeper(f0: seq<nat>, f: seq<nat>, g: seq<nat>, b: Block, ts: seq<Bucket>, lo: int, hi: int, med: nat, u: Bucket)
    requires b != [] && MainSorting(f0, f, b, ts, lo, hi) && ts != [] && |g| == |f| && InBounds(g, BytesAt(b, Top(ts).d))
    requires var t := Top(ts);
             && Rearranged(f, g, t.lo, t.hi) && t.d <= 14 && t.lo <= t.hi && u == Bucket(t.lo, t.hi, t.d + 1) && Range(g, t.lo, t.hi)
             && forall p :: t.lo <= p <= t.hi ==> Cls(g, BytesAt(b, t.d), p) == med
    ensures MainSorting(f0, g, b, Pop(ts) + [u], lo, hi) && Labour(Pop(ts) + [u]) < Labour(ts)
  {
    hide Rearranged, StackThirds, Weight, Ranks, Shares, Key, Together, BytesAt;
    var t, us := Top(ts), Pop(ts) + [u];
    var e := Ranks(b);
    SpansOfPop(ts);
    assert Spans(us) == Spans(ts) == Rest(Spans(ts)) + [SpanOf(u)];
    RearrangedInBounds(f, g, e, t.lo, t.hi);
    forall p, q | lo <= p < q <= hi ensures Cls(g, e, p) <= Cls(g, e, q) || Together(Spans(us), p, q) {
      if t.lo <= p && q <= t.hi {
        TogetherIn(Spans(us), |ts| - 1, p, q);
      } else {
        AcrossStays(f, g, e, Spans(ts), lo, hi, p, q);
        TogetherMore(Rest(Spans(ts)), [SpanOf(u)], p, q);
      }
    }
    OthersShare(f, g, b, ts, lo, hi);
    assert BucketShares(f, b, ts[|ts| - 1]);
    SharesStays(f, g, b, t.lo, t.hi, t.d);
    OneDeeper(g, b, t.lo, t.hi, t.d, med);
    PushShares(g, b, Pop(ts), [u]);
    RearrangedWider(f, g, t.lo, t.hi, lo, hi);
    RearrangedTrans(f0, f, g, lo, hi);
    SameSizes(ts, us, hi - lo + 1);
    LabourDeeper(ts, u);
  }

  lemma PushShares(g: seq<nat>, b: Block, ts: seq<Bucket>, more: seq<Bucket>)
    requires b != [] && AllShare(g, b, ts) && forall k :: 0 <= k < |more| ==> BucketShares(g, b, more[k])
    ensures AllShare(g, b, ts + more)
  {
    hide BucketShares;
  }

  lemma SameSizes(ts: seq<Bucket>, us: seq<Bucket>, total: int)
    requires |ts| == |us| && StackThirds(ts, total) && forall k :: 0 <= k < |ts| ==> BucketSize(us[k]) == BucketSize(ts[k])
    ensures StackThirds(us, total)
  {
    hide Pow2;
  }

  /** Three parts: smaller, larger, and equal one deeper. */
  lemma MainSplit(f0: seq<nat>, f: seq<nat>, g: seq<nat>, b: Block, ts: seq<Bucket>, lo: int, hi: int,
                  med: nat, n: int, m: int, x: Bucket, y: Bucket, z: Bucket)
    requires b != [] && MainSorting(f0, f, b, ts, lo, hi) && ts != [] && |g| == |f|
    requires BucketSize(Top(ts)) > SMALL_THRESHOLD && BucketSize(x) >= BucketSize(y) >= BucketSize(z)
    requires var t := Top(ts);
             && Rearranged(f, g, t.lo, t.hi) && t.d <= 14 && Split(g, BytesAt(b, t.d), med, t.lo, n, m, t.hi) && n + 1 < m
             && Permuted(x, y, z, Bucket(t.lo, n, t.d), Bucket(m, t.hi, t.d), Bucket(n + 1, m - 1, t.d + 1))
    ensures MainSorting(f0, g, b, Pop(ts) + [x, y, z], lo, hi) && Labour(Pop(ts) + [x, y, z]) < Labour(ts)
  {
    hide Rearranged, StackThirds, Weight, Ranks, Shares, Split, OrderedAcross, BytesAt, Labour;
    var t := Top(ts);
    FallbackQSort.SplitSizes(g, BytesAt(b, t.d), med, t.lo, n, m, t.hi);
    RearrangedInBounds(f, g, Ranks(b), t.lo, t.hi);
    assert BucketShares(f, b, ts[|ts| - 1]);
    RearrangedRange(f, g, t.lo, t.hi);
    SharesStays(f, g, b, t.lo, t.hi, t.d);
    ThreeOrdered(f, g, b, ts, lo, hi, med, n, m, x, y, z);
    ThreeFit(ts, lo, hi, n, m, x, y, z, t.d);
    PartsShare(g, b, t.lo, t.hi, t.d, med, n, m);
    OthersShare(f, g, b, ts, lo, hi);
    PushShares(g, b, Pop(ts), [x, y, z]);
    SpansOfPop(ts);
    RearrangedWider(f, g, t.lo, t.hi, lo, hi);
    RearrangedTrans(f0, f, g, lo, hi);
    ThirdsPush(ts, hi - lo + 1, x, y, z);
    LabourThree(ts, n, m, x, y, z);
  }

  lemma MainStart(f: seq<nat>, b: Block, t: Bucket)
    requires b != [] && Range(f, t.lo, t.hi) && InBounds(f, Ranks(b)) && Shares(f, b, t.lo, t.hi, t.d) && t.d <= 15
    ensures MainSorting(f, f, b, [t], t.lo, t.hi)
  {
    hide Shares;
    var ts := [t];
    assert Spans(ts)[0] == (t.lo, t.hi);
    assert Pow2(0) == 1;
    RearrangedSelf(f, t.lo, t.hi);
    forall p, q | t.lo <= p < q <= t.hi ensures Together(Spans(ts), p, q) {
      TogetherIn(Spans(ts), 0, p, q);
    }
  }

  lemma MainEnd(f0: seq<nat>, f: seq<nat>, b: Block, lo: int, hi: int)
    requires b != [] && MainSorting(f0, f, b, [], lo, hi)
    ensures Rearranged(f0, f, lo, hi) && InBounds(f, Ranks(b)) && Range(f, lo, hi) && SortedRange(f, Ranks(b), lo, hi)
  {
  }

  lemma MainFacts(f0: seq<nat>, f: seq<nat>, b: Block, ts: seq<Bucket>, lo: int, hi: int)
    requires b != [] && MainSorting(f0, f, b, ts, lo, hi)
    ensures Rearranged(f0, f, lo, hi) && InBounds(f, Ranks(b)) && Range(f, lo, hi) && |f| == |f0|
  {
  }

  /** mmed3: the median of three bytes, one of them in any case. */
  method Med3(a0: nat, b0: nat, c0: nat) returns (med: nat)
    ensures med in {a0, b0, c0}
    ensures (a0 <= med <= b0 || b0 <= med <= a0) || (a0 <= med <= c0 || c0 <= med <= a0) || (b0 <= med <= c0 || c0 <= med <= b0)
  {
    var a, b, c := a0, b0, c0;
    if a > b { a, b := b, a; }
    if b > c {
      b := c;
      if a > b { b := a; }
    }
    return b;
  }

  /** The three exchanges that order the parts by size, largest first. */
  method OrderBySize(l: Bucket, r: Bucket, c: Bucket) returns (x: Bucket, y: Bucket, z: Bucket)
    ensures Permuted(x, y, z, l, r, c) && BucketSize(x) >= BucketSize(y) >= BucketSize(z)
  {
    x, y, z := l, r, c;
    if x.hi - x.lo < y.hi - y.lo { x, y := y, x; }
    if y.hi - y.lo < z.hi - z.lo { y, z := z, y; }
    if x.hi - x.lo < y.hi - y.lo { x, y := y, x; }
  }

  /** The bytes the partition looks at. */
  method BytesOf(block: seq<nat>, nblock: nat, d: nat, ghost b: Block) returns (e: seq<nat>)
    requires Overshot(block, b) && nblock == |b| && d <= OVERSHOOT
    ensures e == BytesAt(b, d)
  {
    e := block[d..d + nblock];
    forall x | 0 <= x < nblock ensures e[x] == Char(b, x, d) {
      StandsStart(x + d, |b|);
      assert e[x] == block[x + d];
      ByteOf(block, b, x + d, x, d);
    }
  }

  lemma BytesBounds(f: seq<nat>, b: Block, d: nat)
    requires b != []
    ensures InBounds(f, Ranks(b)) <==> InBounds(f, BytesAt(b, d))
  {
  }

  /** mainQSort3: rotations that share dSt bytes end up sorted, rearranged in
      place, unless the budget ran out; the check on sp (error 1001) never
      fails. The three stacks are one sequence of buckets. */
  method MainQSort3(ptr: array<nat>, block: seq<nat>, quadrant: seq<nat>, nblock: nat, loSt: int, hiSt: int, dSt: nat,
                    budget: int, ghost b: Block)
    returns (budget': int)
    requires Comparable(block, quadrant, b) && nblock == |b| && dSt <= 15 && hiSt - loSt < 900000
    requires b != [] && Range(ptr[..], loSt, hiSt) && InBounds(ptr[..], Ranks(b)) && Shares(ptr[..], b, loSt, hiSt, dSt)
    modifies ptr
    ensures Rearranged(old(ptr[..]), ptr[..], loSt, hiSt) && InBounds(ptr[..], Ranks(b)) && Range(ptr[..], loSt, hiSt)
    ensures budget' <= budget && (budget' >= 0 ==> SortedRange(ptr[..], Ranks(b), loSt, hiSt))
  {
    hide MainSorting, Rearranged, InBounds, Shares, Ranks, Split, Labour, BytesAt, Comparable;
    ghost var f0 := ptr[..];
    var stack := [Bucket(loSt, hiSt, dSt)];
    budget' := budget;
    MainStart(f0, b, stack[0]);
    MainFacts(f0, ptr[..], b, stack, loSt, hiSt);
    while |stack| > 0
      invariant MainSorting(f0, ptr[..], b, stack, loSt, hiSt) && budget' <= budget
      decreases Labour(stack)
    {
      ghost var f := ptr[..];
      MainFacts(f0, f, b, stack, loSt, hiSt);
      MainTop(f0, f, b, stack, loSt, hiSt);
      assert |stack| < MAIN_STACK_SIZE - 2;
      var t := Top(stack);
      if t.hi - t.lo < SMALL_THRESHOLD || t.d > DEPTH_THRESH {
        budget' := MainSimpleSort(ptr, block, quadrant, nblock, t.lo, t.hi, t.d, budget', b);
        if budget' < 0 {
          Abandoned(f0, f, ptr[..], b, stack, loSt, hiSt);
          return;
        }
        MainPop(f0, f, ptr[..], b, stack, loSt, hiSt);
        stack := Pop(stack);
      } else {
        var done, n, m, med := PartitionByByte(ptr, block, quadrant, nblock, t, b);
        if done {
          var deeper := Bucket(t.lo, t.hi, t.d + 1);
          MainDeeper(f0, f, ptr[..], b, stack, loSt, hiSt, med, deeper);
          stack := Pop(stack) + [deeper];
        } else {
          var x, y, z := OrderBySize(Bucket(t.lo, n, t.d), Bucket(m, t.hi, t.d), Bucket(n + 1, m - 1, t.d + 1));
          MainSplit(f0, f, ptr[..], b, stack, loSt, hiSt, med, n, m, x, y, z);
          stack := Pop(stack) + [x, y, z];
        }
      }
    }
    MainEnd(f0, ptr[..], b, loSt, hiSt);
  }

  lemma Abandoned(f0: seq<nat>, f: seq<nat>, g: seq<nat>, b: Block, ts: seq<Bucket>, lo: int, hi: int)
    requires b != [] && MainSorting(f0, f, b, ts, lo, hi) && ts != [] && InBounds(g, Ranks(b))
    requires Rearranged(f, g, Top(ts).lo, Top(ts).hi)
    ensures Rearranged(f0, g, lo, hi) && Range(g, lo, hi)
  {
    hide Rearranged, OrderedAcross, StackThirds, AllShare, Ranks;
    var t := Top(ts);
    SpansOfPop(ts);
    RearrangedRange(f, g, t.lo, t.hi);
    RearrangedWider(f, g, t.lo, t.hi, lo, hi);
    RearrangedTrans(f0, f, g, lo, hi);
  }

  /** Choose the median of three and partition by the byte at depth d. */
  method PartitionByByte(ptr: array<nat>, block: seq<nat>, quadrant: seq<nat>, nblock: nat, t: Bucket, ghost b: Block)
    returns (done: bool, n: int, m: int, med: nat)
    requires Comparable(block, quadrant, b) && nblock == |b| && t.d <= 14 && t.lo <= t.hi
    requires b != [] && Range(ptr[..], t.lo, t.hi) && InBounds(ptr[..], Ranks(b))
    modifies ptr
    ensures Rearranged(old(ptr[..]), ptr[..], t.lo, t.hi) && InBounds(ptr[..], BytesAt(b, t.d)) && Range(ptr[..], t.lo, t.hi)
    ensures done ==> forall p :: t.lo <= p <= t.hi ==> Cls(ptr[..], BytesAt(b, t.d), p) == med
    ensures !done ==> Split(ptr[..], BytesAt(b, t.d), med, t.lo, n, m, t.hi) && n + 1 < m
  {
    hide Rearranged, Split, BytesAt, Ranks, QuadrantsOrder;
    ComparableSize(block, quadrant, b);
    var e := BytesOf(block, nblock, t.d, b);
    BytesBounds(ptr[..], b, t.d);
    var mid := (t.lo + t.hi) / 2;
    assert Cls(ptr[..], e, t.lo) == e[ptr[t.lo]] && Cls(ptr[..], e, t.hi) == e[ptr[t.hi]] && Cls(ptr[..], e, mid) == e[ptr[mid]];
    med := Med3(e[ptr[t.lo]], e[ptr[t.hi]], e[ptr[mid]]);
    done, n, m := Partition(ptr, e, t.lo, t.hi, med);
    RearrangedRange(old(ptr[..]), ptr[..], t.lo, t.hi);
  }
}
