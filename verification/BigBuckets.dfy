/** mainSort (blocksort.c): a two-byte radix sort, then big buckets from the
    least full on, each completed by quicksort where nothing is known yet and
    then used to order the small buckets that lead into it. */
module BigBuckets {
  import opened Arith
  import opened CountingSort
  import opened Rotations
  import opened SmallBuckets
  import opened CopyScan
  import opened MainSort
  import QS = FallbackQSort
  import FS = FallbackSort
  import MoveToFront

  // ---------- The radix sort ----------

  /** Count the two-byte values, from the back, and clear the quadrants. */
  method CountPairs(block: array<Byte>, quadrant: array<nat>, ftab: array<nat>, nblock: nat)
    requires 0 < nblock <= block.Length && nblock <= quadrant.Length && ftab.Length == 65537 && quadrant != ftab
    modifies quadrant, ftab
    ensures forall k :: 0 <= k < nblock ==> quadrant[k] == 0
    ensures ftab[65536] == 0 && forall s :: 0 <= s < 65536 ==> ftab[s] == |Positions(Pairs(block[..nblock]), s, nblock)|
  {
    hide Pair;
    ghost var b := block[..nblock];
    for i := 65537 downto 0
      invariant forall s :: i <= s < 65537 ==> ftab[s] == 0
    {
      ftab[i] := 0;
    }
    var j: nat := (block[0] as nat) * 256;
    FirstPair(b);
    for i := nblock downto 0
      invariant j < 65536 && j / 256 == b[i % |b|]
      invariant forall k :: i <= k < nblock ==> quadrant[k] == 0
      invariant ftab[65536] == 0
      invariant forall s :: 0 <= s < 65536 ==> ftab[s] == |Positions(Pairs(b), s, nblock)| - |Positions(Pairs(b), s, i)|
    {
      quadrant[i] := 0;
      j := j / 256 + (block[i] as nat) * 256;
      PairIs(b, i, j);
      ftab[j] := ftab[j] + 1;
    }
  }

  /** Repeat the first bytes behind the block. */
  method Overshoot(block: array<Byte>, quadrant: array<nat>, nblock: nat)
    requires nblock > OVERSHOOT && block.Length == quadrant.Length == nblock + OVERSHOOT && block as object != quadrant
    requires forall k :: 0 <= k < nblock ==> quadrant[k] == 0
    modifies block, quadrant
    ensures block[..nblock] == old(block[..nblock]) && Overshot(block[..], block[..nblock])
    ensures forall k :: 0 <= k < quadrant.Length ==> quadrant[k] == 0
  {
    ghost var b := block[..nblock];
    for i := 0 to OVERSHOOT
      invariant forall k :: 0 <= k < nblock ==> block[k] == b[k]
      invariant forall k :: nblock <= k < nblock + i ==> block[k] == b[k - nblock]
      invariant forall k :: 0 <= k < nblock + i ==> quadrant[k] == 0
    {
      block[nblock + i] := block[i];
      quadrant[nblock + i] := 0;
    }
    OvershotNow(block[..], b);
  }

  lemma FirstPair(b: Block)
    requires b != []
    ensures |b| % |b| == 0 && (b[0] as nat) * 256 / 256 == b[0]
  {
    ModPlus(0, |b|, |b|);
    WrapAround(0, |b|);
    SmallMod(0, |b|);
  }

  lemma PairIs(b: Block, i: nat, j: nat)
    requires i < |b| && j == (b[(i + 1) % |b|] as nat) + (b[i] as nat) * 256
    ensures j == Pair(b, i) == Pairs(b)[i] && j / 256 == b[i % |b|] && i % |b| == i
  {
    SmallMod(i, |b|);
  }

  lemma OvershotNow(block: seq<nat>, b: Block)
    requires |b| > OVERSHOOT && |block| == |b| + OVERSHOOT
    requires forall k :: 0 <= k < |b| ==> block[k] == b[k]
    requires forall k :: |b| <= k < |b| + OVERSHOOT ==> block[k] == b[k - |b|]
    ensures Overshot(block, b)
  {
    forall i {:trigger block[i]} | 0 <= i < |block| ensures block[i] == b[i % |b|] {
      OvershootMod(i, |b|);
    }
  }

  lemma OvershootMod(i: nat, n: nat)
    requires n > OVERSHOOT && i < n + OVERSHOOT
    ensures i % n == if i < n then i else i - n
  {
    if i < n {
      SmallMod(i, n);
    } else {
      WrapAround(i - n, n);
      SmallMod(i - n, n);
    }
  }

  /** Running sums: one past the last row of every small bucket. */
  method SumPairs(ftab: array<nat>, ghost b: Block)
    requires ftab.Length == 65537 && ftab[65536] == 0
    requires forall s :: 0 <= s < 65536 ==> ftab[s] == |Positions(Pairs(b), s, |b|)|
    modifies ftab
    ensures ftab[65536] == |b| && forall s :: 0 <= s < 65536 ==> ftab[s] == Start(b, s + 1)
  {
    hide Pair, CountBelow, Positions;
    CountBelowZero(Pairs(b), |b|);
    OrderCounts(Pairs(b), 1, |b|);
    for i := 1 to 65537
      invariant forall s :: 0 <= s < i && s < 65536 ==> ftab[s] == Start(b, s + 1)
      invariant forall s :: i <= s < 65536 ==> ftab[s] == |Positions(Pairs(b), s, |b|)|
      invariant ftab[65536] == if i <= 65536 then 0 else Start(b, 65536)
    {
      OrderCounts(Pairs(b), i + 1, |b|);
      ftab[i] := ftab[i] + ftab[i - 1];
    }
    StartEnds(b);
  }

  /** Rotations from i on lie in their rows; the table holds, for every small
      bucket, the row after its last free one. */
  ghost predicate Placing(p: seq<nat>, ptr: seq<nat>, ftab: seq<nat>, i: nat) {
    && i <= |p| == |ptr| && |ftab| == 65537 && (forall x :: 0 <= x < |p| ==> p[x] < 65536)
    && (forall s :: 0 <= s < 65536 ==> ftab[s] == CountBelow(p, s, |p|) + |Positions(p, s, i)|)
    && (forall x :: i <= x < |p| ==> Row(p, x) < |p| && ptr[Row(p, x)] == x)
  }

  lemma PlaceNext(p: seq<nat>, ptr: seq<nat>, ftab: seq<nat>, i: nat)
    requires Placing(p, ptr, ftab, i + 1) && i < |p|
    ensures var j := ftab[p[i]] - 1;
            0 <= j < |p| && Placing(p, ptr[j := i], ftab[p[i] := j], i)
  {
    hide CountBelow, Positions, Row;
    RowIs(p, i);
    forall x | i < x < |p| ensures Row(p, x) != Row(p, i) {
      RowsDistinct(p, x, i);
    }
    forall s | 0 <= s < 65536 ensures |Positions(p, s, i + 1)| == |Positions(p, s, i)| + if s == p[i] then 1 else 0 {
      OneMorePosition(p, s, i);
    }
  }

  /** Put every rotation into the last free row of its small bucket, from the
      back: the table then holds the first row of each. */
  method PlacePairs(ptr: array<nat>, block: array<Byte>, ftab: array<nat>, nblock: nat)
    requires 0 < nblock <= block.Length && ptr.Length == nblock && ftab.Length == 65537 && ptr != ftab
    requires ftab[65536] == nblock && forall s :: 0 <= s < 65536 ==> ftab[s] == Start(block[..nblock], s + 1)
    modifies ptr, ftab
    ensures Placed(block[..nblock], ptr[..])
    ensures forall s :: 0 <= s < 65537 ==> ftab[s] == Start(block[..nblock], s)
    ensures Constant(block[..nblock]) ==> InOrder(ptr[..])
  {
    hide Constant, Pair, CountBelow, Positions, Placed, Row, Placing;
    ghost var b := block[..nblock];
    ghost var p := Pairs(b);
    var v: nat := (block[0] as nat) * 256;
    FirstPair(b);
    PlacingStarts(b, ptr[..], ftab[..]);
    for i := nblock downto 0
      invariant v < 65536 && v / 256 == b[i % |b|] && ftab[65536] == nblock
      invariant Placing(p, ptr[..], ftab[..], i)
    {
      v := v / 256 + (block[i] as nat) * 256;
      PairIs(b, i, v);
      PlaceNext(p, ptr[..], ftab[..], i);
      var j := ftab[v] - 1;
      ftab[v] := j;
      ptr[j] := i;
    }
    PlacingEnds(b, ptr[..], ftab[..]);
    if Constant(b) { ConstantPlaces(b, ptr[..], ftab[..]); }
  }

  /** The rotations from first to last. */
  ghost predicate InOrder(f: seq<nat>) {
    forall k :: 0 <= k < |f| ==> f[k] == k
  }

  lemma ConstantPair(b: Block, x: nat)
    requires Constant(b) && x < |b|
    ensures Pairs(b)[x] == b[0] as nat * 257
  {
  }

  /** A block of one byte has one small bucket, with every rotation in it. */
  lemma ConstantStart(b: Block, s: nat)
    requires Constant(b) && b != []
    ensures Start(b, s) == if b[0] as nat * 257 < s then |b| else 0
  {
    hide CountBelow, Positions, Pair;
    forall x | 0 <= x < |b| ensures Pairs(b)[x] == b[0] as nat * 257 { ConstantPair(b, x); }
    ConstantCounts(Pairs(b), b[0] as nat * 257, s, |b|);
  }

  /** Placing rotations from the last to the first keeps equal ones in order. */
  lemma ConstantPlaces(b: Block, f: seq<nat>, ftab: seq<nat>)
    requires Constant(b) && b != [] && Placing(Pairs(b), f, ftab, 0)
    ensures InOrder(f)
  {
    hide CountBelow, Positions, Pair;
    forall x | 0 <= x < |b| ensures Pairs(b)[x] == b[0] as nat * 257 { ConstantPair(b, x); }
    forall k | 0 <= k < |f| ensures f[k] == k {
      ConstantCounts(Pairs(b), b[0] as nat * 257, Pairs(b)[k], |b|);
      ConstantCounts(Pairs(b), b[0] as nat * 257, Pairs(b)[k], k);
      assert Row(Pairs(b), k) == k;
    }
  }

  /** Away from the diagonal its small buckets are empty. */
  lemma ConstantColumn(b: Block, ss: Byte, j: nat)
    requires Constant(b) && b != [] && j < 256
    ensures j != ss ==> Start(b, ss * 256 + j) == Start(b, ss * 256 + j + 1)
    ensures Start(b, ss * 256) == Start(b, ss * 256 + ss)
    ensures Start(b, ss * 256 + ss + 1) == Start(b, ss * 256 + 256)
  {
    hide Start, Constant;
    ConstantStart(b, ss * 256);
    ConstantStart(b, ss * 256 + j);
    ConstantStart(b, ss * 256 + j + 1);
    ConstantStart(b, ss * 256 + ss);
    ConstantStart(b, ss * 256 + ss + 1);
    ConstantStart(b, ss * 256 + 256);
  }

  lemma PlacingStarts(b: Block, ptr: seq<nat>, ftab: seq<nat>)
    requires |ptr| == |b| && |ftab| == 65537 && forall s :: 0 <= s < 65536 ==> ftab[s] == Start(b, s + 1)
    ensures Placing(Pairs(b), ptr, ftab, |b|)
  {
    hide CountBelow, Positions;
    var p := Pairs(b);
    forall s | 0 <= s < 65536 ensures Start(b, s + 1) == Start(b, s) + |Positions(p, s, |b|)| {
      OrderCounts(p, s + 1, |b|);
    }
  }

  lemma PlacingEnds(b: Block, ptr: seq<nat>, ftab: seq<nat>)
    requires b != [] && Placing(Pairs(b), ptr, ftab, 0) && ftab[65536] == |b|
    ensures Placed(b, ptr) && forall s :: 0 <= s < 65537 ==> ftab[s] == Start(b, s)
  {
    hide CountBelow, Positions, Row;
    forall s | 0 <= s < 65536 ensures |Positions(Pairs(b), s, 0)| == 0 {
      NoPositions(Pairs(b), s);
    }
    StartEnds(b);
    RowsArePlaced(b, ptr);
  }

  lemma RowIs(p: seq<nat>, i: nat)
    requires i < |p|
    ensures CountBelow(p, p[i], |p|) <= Row(p, i) < CountBelow(p, p[i] + 1, |p|) <= |p|
    ensures Row(p, i) == CountBelow(p, p[i], |p|) + |Positions(p, p[i], i)|
  {
    hide CountBelow, Positions;
    PositionsGrow(p, p[i], i, |p|);
    OrderCounts(p, p[i] + 1, |p|);
  }

  lemma RowsDistinct(p: seq<nat>, x: nat, y: nat)
    requires x < |p| && y < |p| && x != y
    ensures Row(p, x) != Row(p, y)
  {
    hide Row;
    var m := if p[x] > p[y] then p[x] + 1 else p[y] + 1;
    RowFindsPosition(p, m, x);
    RowFindsPosition(p, m, y);
  }

  /** The permutation with every rotation at its stable row. */
  lemma RowsArePlaced(b: Block, f: seq<nat>)
    requires b != [] && |f| == |b|
    requires forall x :: 0 <= x < |b| ==> Row(Pairs(b), x) < |b| && f[Row(Pairs(b), x)] == x
    ensures Placed(b, f)
  {
    hide Pair, CountBelow, Row;
    var p := Pairs(b);
    var o := StableOrder(p, 65536);
    OrderIsFull(p, 65536);
    forall k | 0 <= k < |b| ensures f[k] == o[k] < |b| && Start(b, Pair(b, f[k])) <= k < Start(b, Pair(b, f[k]) + 1) {
      PositionFindsRow(p, 65536, k);
      RowIs(p, o[k]);
    }
    forall j, k | 0 <= j < k < |b| ensures f[j] != f[k] {
      StableOrderDistinct(p, 65536, j, k);
    }
  }

  // ---------- The running order ----------

  function BigFreq(ftab: seq<nat>, c: nat): int
    requires |ftab| == 65537 && c < 256
  {
    ftab[(c + 1) * 256] as int - ftab[c * 256]
  }

  ghost predicate BigOrder(ro: seq<nat>) {
    |ro| == 256 && Permutation(ro)
  }

  /** Up to entry i the order ascends, but for entry j, which is still sinking. */
  ghost predicate Ascends(ro: seq<nat>, ftab: seq<nat>, i: int, j: int)
    requires |ftab| == 65537 && BigOrder(ro) && i < 256
  {
    forall p, q {:trigger ro[p], ro[q]} :: 0 <= p < q <= i && q != j ==> BigFreq(ftab, ro[p]) <= BigFreq(ftab, ro[q])
  }

  lemma SinkOne(ro: seq<nat>, ftab: seq<nat>, i: nat, j: nat, h: nat)
    requires |ftab| == 65537 && BigOrder(ro) && 1 <= h <= j <= i < 256
    requires BigFreq(ftab, ro[j - h]) > BigFreq(ftab, ro[j]) && (h == 1 ==> Ascends(ro, ftab, i, j))
    ensures BigOrder(Swap(ro, j - h, j)) && (h == 1 ==> Ascends(Swap(ro, j - h, j), ftab, i, j - h))
  {
    hide BigFreq;
  }

  /** One entry sinks, h places at a time. */
  method SinkBucket(ro: array<nat>, ftab: array<nat>, h: nat, i: nat)
    requires ro != ftab && ftab.Length == 65537 && BigOrder(ro[..]) && 1 <= h <= i < 256
    requires h == 1 ==> Ascends(ro[..], ftab[..], i - 1, i)
    modifies ro
    ensures BigOrder(ro[..]) && (h == 1 ==> Ascends(ro[..], ftab[..], i, 256))
  {
    hide BigFreq, Permutation;
    var vv, j := ro[i], i;
    ghost var g := ro[..];
    OrderSize(g);
    while BigFreq(ftab[..], ro[j - h]) > BigFreq(ftab[..], vv)
      invariant h <= j <= i && ro.Length == 256 && ro[..][j := vv] == g && BigOrder(g) && vv < 256 && g[j] == vv
      invariant ro[j - h] < 256 && ro[j - h] == g[j - h]
      invariant h == 1 ==> Ascends(g, ftab[..], i, j)
      decreases j
    {
      SinkOne(g, ftab[..], i, j, h);
      g := Swap(g, j - h, j);
      OrderSize(g);
      ro[j] := ro[j - h];
      j := j - h;
      assert ro[..][j := vv] == g;
      if j <= h - 1 { break; }
      assert ro[..][j := vv][j - h] == g[j - h];
    }
    ro[j] := vv;
    assert ro[..] == g;
  }

  lemma OrderSize(ro: seq<nat>)
    requires BigOrder(ro)
    ensures |ro| == 256 && forall k :: 0 <= k < 256 ==> ro[k] < 256
  {
  }

  /** Shell sort: the least full big bucket comes first. */
  method OrderBuckets(ro: array<nat>, ftab: array<nat>)
    requires ro != ftab && ro.Length == 256 && ftab.Length == 65537
    modifies ro
    ensures BigOrder(ro[..]) && Ascends(ro[..], ftab[..], 255, 256)
  {
    hide BigFreq, Ascends;
    for i := 0 to 256
      invariant forall k :: 0 <= k < i ==> ro[k] == k
    {
      ro[i] := i;
    }
    var h := 4;
    while h <= 256
      invariant h in {4, 13, 40, 121, 364}
    {
      h := 3 * h + 1;
    }
    while true
      invariant BigOrder(ro[..]) && h in {4, 13, 40, 121, 364}
      decreases h
    {
      h := h / 3;
      AscendsStart(ro[..], ftab[..]);
      for i := h to 256
        invariant BigOrder(ro[..]) && (h == 1 ==> Ascends(ro[..], ftab[..], i - 1, 256))
      {
        AscendsWeaker(ro[..], ftab[..], i);
        SinkBucket(ro, ftab, h, i);
      }
      if h == 1 { break; }
    }
  }

  lemma AscendsStart(ro: seq<nat>, ftab: seq<nat>)
    requires |ftab| == 65537 && BigOrder(ro)
    ensures Ascends(ro, ftab, 0, 256)
  {
  }

  lemma AscendsWeaker(ro: seq<nat>, ftab: seq<nat>, i: nat)
    requires |ftab| == 65537 && BigOrder(ro) && i < 256
    ensures i >= 1 && Ascends(ro, ftab, i - 1, 256) ==> Ascends(ro, ftab, i - 1, i)
  {
    hide BigFreq;
  }

  // ---------- What is known of the order ----------

  const SETMASK := 0x20_0000

  function Clear(v: nat): nat { v % SETMASK }

  predicate Marked(v: nat) { v >= SETMASK }

  function Mark(v: nat): nat { if Marked(v) then v else v + SETMASK }

  /** Every entry holds the first row of its small bucket, perhaps marked. */
  ghost predicate Table(b: Block, ftab: seq<nat>) {
    |ftab| == 65537 && forall s {:trigger ftab[s]} :: 0 <= s <= 65536 ==> Clear(ftab[s]) == Start(b, s) && ftab[s] < 2 * SETMASK
  }

  /** Marked small buckets are sorted. */
  ghost predicate Known(b: Block, f: seq<nat>, ftab: seq<nat>)
    requires b != [] && |ftab| == 65537
  {
    forall s {:trigger ftab[s]} :: 0 <= s < 65536 && Marked(ftab[s]) ==> BucketSorted(b, f, s)
  }

  lemma TableMarked(b: Block, f: seq<nat>, ftab: seq<nat>, s: nat)
    requires b != [] && Table(b, ftab) && Known(b, f, ftab) && s < 65536 && BucketSorted(b, f, s)
    ensures Table(b, ftab[s := Mark(ftab[s])]) && Known(b, f, ftab[s := Mark(ftab[s])])
  {
    hide BucketSorted, Start;
  }

  // ---------- Step 1 ----------

  lemma BeforeSort(b: Block, f: seq<nat>, s: nat)
    requires Placed(b, f)
    ensures var lo, hi := Start(b, s), Start(b, s + 1) - 1;
            QS.Range(f, lo, hi) && QS.InBounds(f, Ranks(b)) && Shares(f, b, lo, hi, 2)
  {
    hide Start, Key, Pair;
    StartMono(b, s, s + 1);
    var lo, hi := Start(b, s), Start(b, s + 1) - 1;
    forall p, q {:trigger f[p], f[q]} | lo <= p <= hi && lo <= q <= hi ensures Key(b, f[p], 2) == Key(b, f[q], 2) {
      RowHolds(b, f, s, p);
      RowHolds(b, f, s, q);
      PairIsKey(b, f[p]);
      PairIsKey(b, f[q]);
    }
  }

  lemma AfterSort(b: Block, f: seq<nat>, g: seq<nat>, s: nat)
    requires Placed(b, f) && QS.Rearranged(f, g, Start(b, s), Start(b, s + 1) - 1)
    ensures Placed(b, g)
  {
    hide Start, Key, Pair, QS.Rearranged, Permutation;
    var lo, hi := Start(b, s), Start(b, s + 1) - 1;
    FS.RearrangedPermutation(f, g, lo, hi);
    RearrangedOutside(f, g, lo, hi);
    PermutationRange(f);
    PermutationRange(g);
    forall k {:trigger g[k]} | 0 <= k < |g| ensures Start(b, Pair(b, g[k])) <= k < Start(b, Pair(b, g[k]) + 1) {
      if lo <= k <= hi {
        var q := QS.RearrangedFrom(f, g, lo, hi, k);
        RowHolds(b, f, s, q);
      } else {
        assert g[k] == f[k];
      }
    }
  }

  lemma PermutationRange(f: seq<nat>)
    requires Permutation(f)
    ensures forall k :: 0 <= k < |f| ==> f[k] < |f|
  {
  }

  lemma RearrangedOutside(f: seq<nat>, g: seq<nat>, lo: int, hi: int)
    requires QS.Rearranged(f, g, lo, hi)
    ensures |f| == |g| && forall p :: 0 <= p < |f| && !(lo <= p <= hi) ==> g[p] == f[p]
  {
  }

  lemma OthersStay(b: Block, f: seq<nat>, g: seq<nat>, s: nat, u: nat)
    requires b != [] && QS.Rearranged(f, g, Start(b, s), Start(b, s + 1) - 1) && u != s && BucketSorted(b, f, u)
    ensures BucketSorted(b, g, u)
  {
    hide Start, Key, QS.Rearranged;
    RearrangedOutside(f, g, Start(b, s), Start(b, s + 1) - 1);
    if u < s { StartMono(b, u + 1, s); } else { StartMono(b, s + 1, u); }
  }

  lemma NowSorted(b: Block, g: seq<nat>, s: nat)
    requires Placed(b, g)
    requires var lo, hi := Start(b, s), Start(b, s + 1) - 1;
             QS.Range(g, lo, hi) && QS.InBounds(g, Ranks(b)) && QS.SortedRange(g, Ranks(b), lo, hi)
    ensures BucketSorted(b, g, s)
  {
    hide Start, Key;
    forall p, q {:trigger g[p], g[q]} | Start(b, s) <= p < q < Start(b, s + 1) ensures Key(b, g[p], |b|) <= Key(b, g[q], |b|) {
      assert QS.Cls(g, Ranks(b), p) <= QS.Cls(g, Ranks(b), q);
    }
  }

  lemma StillKnown(b: Block, f: seq<nat>, g: seq<nat>, ftab: seq<nat>, s: nat)
    requires Placed(b, f) && Table(b, ftab) && Known(b, f, ftab) && s < 65536
    requires QS.Rearranged(f, g, Start(b, s), Start(b, s + 1) - 1) && BucketSorted(b, g, s)
    ensures Known(b, g, ftab)
  {
    hide Start, Key, QS.Rearranged, BucketSorted, Placed;
    PlacedRots(b, f);
    forall u {:trigger ftab[u]} | 0 <= u < 65536 && Marked(ftab[u]) ensures BucketSorted(b, g, u) {
      if u != s { OthersStay(b, f, g, s, u); }
    }
  }

  lemma FewRows(b: Block, f: seq<nat>, s: nat)
    requires Placed(b, f) && Start(b, s + 1) <= Start(b, s) + 1
    ensures BucketSorted(b, f, s)
  {
  }

  /** Quicksort a small bucket, unless it is known to be sorted. */
  method SortBucket(ptr: array<nat>, block: array<Byte>, quadrant: array<nat>, ftab: array<nat>, nblock: nat, sb: nat,
                    budget: int, ghost b: Block)
    returns (budget': int)
    requires ptr != ftab && ptr != quadrant && quadrant != ftab && sb < 65536
    requires block as object !in {ptr, ftab, quadrant} && budget >= 0
    requires nblock == |b| <= 900000 && Comparable(block[..], quadrant[..], b)
    requires Placed(b, ptr[..]) && Table(b, ftab[..]) && Known(b, ptr[..], ftab[..])
    modifies ptr, ftab
    ensures budget' <= budget
    ensures Placed(b, ptr[..]) && Table(b, ftab[..])
    ensures budget' >= 0 ==>
      Known(b, ptr[..], ftab[..]) && ftab[..] == old(ftab[..])[sb := Mark(old(ftab[sb]))]
    ensures Start(b, sb + 1) <= Start(b, sb) + 1 ==> ptr[..] == old(ptr[..]) && budget' == budget
  {
    hide Start, Comparable, Placed, Known, BucketSorted, QS.Rearranged, QS.SortedRange, QS.Range, QS.InBounds, Shares, Key;
    budget' := budget;
    PlacedRots(b, ptr[..]);
    if !Marked(ftab[sb]) {
      var lo, hi := Clear(ftab[sb]), Clear(ftab[sb + 1]) - 1;
      ghost var f := ptr[..];
      BeforeSort(b, f, sb);
      if hi > lo {
        StartMono(b, sb + 1, 65536);
        budget' := MainQSort3(ptr, block[..], quadrant[..], nblock, lo, hi, 2, budget, b);
        AfterSort(b, f, ptr[..], sb);
        if budget' < 0 { return; }
        NowSorted(b, ptr[..], sb);
        StillKnown(b, f, ptr[..], ftab[..], sb);
      } else {
        FewRows(b, f, sb);
      }
    } else {
      KnownAt(b, ptr[..], ftab[..], sb);
    }
    TableMarked(b, ptr[..], ftab[..], sb);
    ftab[sb] := Mark(ftab[sb]);
  }

  lemma KnownAt(b: Block, f: seq<nat>, ftab: seq<nat>, s: nat)
    requires b != [] && |ftab| == 65537 && Known(b, f, ftab) && s < 65536 && Marked(ftab[s])
    ensures BucketSorted(b, f, s)
  {
  }

  /** Step 1: complete big bucket ss, but for its own small bucket [ss, ss]. */
  method CompleteBucket(ptr: array<nat>, block: array<Byte>, quadrant: array<nat>, ftab: array<nat>, nblock: nat, ss: Byte,
                        budget: int, ghost b: Block)
    returns (budget': int)
    requires ptr != ftab && ptr != quadrant && quadrant != ftab
    requires block as object !in {ptr, ftab, quadrant} && budget >= 0
    requires nblock == |b| <= 900000 && Comparable(block[..], quadrant[..], b)
    requires Placed(b, ptr[..]) && Table(b, ftab[..]) && Known(b, ptr[..], ftab[..])
    modifies ptr, ftab
    ensures budget' <= budget
    ensures budget' >= 0 ==>
      && Placed(b, ptr[..]) && Table(b, ftab[..]) && Known(b, ptr[..], ftab[..]) && SortedAround(b, ptr[..], ss)
      && forall s :: 0 <= s < 65536 ==>
           (Marked(ftab[s]) <==> Marked(old(ftab[s])) || (ss * 256 <= s < ss * 256 + 256 && s != ss * 256 + ss))
    ensures Constant(b) ==> ptr[..] == old(ptr[..]) && budget' == budget
  {
    hide Start, Comparable, Placed, Known, BucketSorted, Constant;
    PlacedRots(b, ptr[..]);
    budget' := budget;
    for j := 0 to 256
      invariant 0 <= budget' <= budget
      invariant Placed(b, ptr[..]) && Table(b, ftab[..]) && Known(b, ptr[..], ftab[..])
      invariant forall s :: 0 <= s < 65536 ==>
        (Marked(ftab[s]) <==> Marked(old(ftab[s])) || (ss * 256 <= s < ss * 256 + j && s != ss * 256 + ss))
      invariant Constant(b) ==> ptr[..] == old(ptr[..]) && budget' == budget
    {
      if j != ss {
        if Constant(b) { ConstantColumn(b, ss, j); }
        budget' := SortBucket(ptr, block, quadrant, ftab, nblock, ss * 256 + j, budget', b);
        if budget' < 0 { return; }
      }
    }
    AroundSorted(b, ptr[..], ftab[..], ss);
  }

  lemma AroundSorted(b: Block, f: seq<nat>, ftab: seq<nat>, c: Byte)
    requires b != [] && |ftab| == 65537 && Known(b, f, ftab)
    requires forall s :: c * 256 <= s < c * 256 + 256 && s != c * 256 + c ==> Marked(ftab[s])
    ensures SortedAround(b, f, c)
  {
    hide BucketSorted;
    assert forall s {:trigger BucketSorted(b, f, s)} :: c * 256 <= s < c * 256 + 256 && s != c * 256 + c ==> ftab[s] >= SETMASK;
  }

  // ---------- Step 2 ----------

  lemma PredValue(y: nat, n: nat)
    requires y < n
    ensures Pred(y, n) == if y == 0 then n - 1 else y - 1
  {
    if y == 0 {
      SmallMod(n - 1, n);
    } else {
      WrapAround(y - 1, n);
      SmallMod(y - 1, n);
    }
  }

  /** Where a scan stands, in its own terms and in those of the rows. */
  lemma ScanPoint(b: Block, f0: seq<nat>, f: seq<nat>, c: Byte, up: bool, done: seq<bool>, o: seq<nat>,
                  r: seq<nat>, other: seq<nat>, copy: seq<int>)
    requires Copying(b, f0, f, c, up, done, o, r, other, copy)
    ensures var k := Place(up, Start(b, c * 256), Start(b, c * 256 + 256), |r|);
            && (|r| < |o| + |Preds(b, r, c)| <==> if up then k < copy[c] else k > copy[c])
            && -1 <= copy[c] <= |b| && r <= o + Preds(b, r, c) && |f| == |b|
  {
    hide Run, Outer, Side, Start, Pair, Preds, Frame, Placed, MoveToFront.Distinct, Lo, Hi;
    CopyPlace(b, f, c, up, done, r, other, copy, c);
    BucketRows(b, c, c);
    assert Filled(f, up, Lo(b, c, c), Hi(b, c, c), Preds(b, r, c));
  }

  lemma CopyingSizes(b: Block, f0: seq<nat>, f: seq<nat>, c: Byte, up: bool, done: seq<bool>, o: seq<nat>,
                     r: seq<nat>, other: seq<nat>, copy: seq<int>)
    requires Copying(b, f0, f, c, up, done, o, r, other, copy)
    ensures Rots(b, r) && Rots(b, o)
  {
  }

  /** From the low end of big bucket ss. */
  method ScanUp(ptr: array<nat>, block: array<Byte>, nblock: nat, ss: Byte, from: nat, bigDone: array<bool>,
                copyStart: array<int>, ghost b: Block, ghost f0: seq<nat>, ghost o: seq<nat>)
    returns (ghost r: seq<nat>)
    requires bigDone.Length == copyStart.Length == 256 && nblock == |b| <= block.Length && block[..nblock] == b
    requires from == Start(b, ss * 256) && ptr as object !in {block, copyStart, bigDone}
    requires Copying(b, f0, ptr[..], ss, true, bigDone[..], o, [], [], copyStart[..])
    modifies ptr, copyStart
    ensures Copying(b, f0, ptr[..], ss, true, bigDone[..], o, r, [], copyStart[..])
    ensures Rots(b, r) && r == o + Preds(b, r, ss)
    ensures old(copyStart[ss]) <= from ==> ptr[..] == old(ptr[..])
  {
    hide Copying, Start, Preds;
    r := [];
    var j := from;
    ScanPoint(b, f0, ptr[..], ss, true, bigDone[..], o, r, [], copyStart[..]);
    while j < copyStart[ss]
      invariant Copying(b, f0, ptr[..], ss, true, bigDone[..], o, r, [], copyStart[..])
      invariant j == from + |r| && copyStart[ss] <= nblock
      invariant old(copyStart[ss]) <= from ==> copyStart[ss] <= j && ptr[..] == old(ptr[..])
      decreases nblock - j
    {
      ScanPoint(b, f0, ptr[..], ss, true, bigDone[..], o, r, [], copyStart[..]);
      CopyingSizes(b, f0, ptr[..], ss, true, bigDone[..], o, r, [], copyStart[..]);
      NextRow(b, f0, ptr[..], ss, true, bigDone[..], o, r, [], copyStart[..]);
      ghost var y := ptr[j];
      PredValue(y, nblock);
      CopyTurn(b, f0, ptr[..], ss, true, bigDone[..], o, r, [], copyStart[..], y);
      var k: int := ptr[j] as int - 1;
      if k < 0 { k := k + nblock; }
      var c1 := block[k];
      if !bigDone[c1] {
        ptr[copyStart[c1]] := k;
        copyStart[c1] := copyStart[c1] + 1;
      }
      r := r + [y];
      j := j + 1;
      ScanPoint(b, f0, ptr[..], ss, true, bigDone[..], o, r, [], copyStart[..]);
    }
    ScanPoint(b, f0, ptr[..], ss, true, bigDone[..], o, r, [], copyStart[..]);
    CopyingSizes(b, f0, ptr[..], ss, true, bigDone[..], o, r, [], copyStart[..]);
  }

  /** From the high end. */
  method ScanDown(ptr: array<nat>, block: array<Byte>, nblock: nat, ss: Byte, from: int, bigDone: array<bool>,
                  copyEnd: array<int>, ghost b: Block, ghost f0: seq<nat>, ghost o: seq<nat>, ghost rU: seq<nat>)
    returns (ghost r: seq<nat>)
    requires bigDone.Length == copyEnd.Length == 256 && nblock == |b| <= block.Length && block[..nblock] == b
    requires from == Start(b, ss * 256 + 256) - 1 && ptr as object !in {block, copyEnd, bigDone}
    requires Copying(b, f0, ptr[..], ss, false, bigDone[..], o, [], rU, copyEnd[..])
    modifies ptr, copyEnd
    ensures Copying(b, f0, ptr[..], ss, false, bigDone[..], o, r, rU, copyEnd[..])
    ensures Rots(b, r) && r == o + Preds(b, r, ss)
    ensures old(copyEnd[ss]) >= from ==> ptr[..] == old(ptr[..])
  {
    hide Copying, Start, Preds;
    r := [];
    var j := from;
    ScanPoint(b, f0, ptr[..], ss, false, bigDone[..], o, r, rU, copyEnd[..]);
    while j > copyEnd[ss]
      invariant Copying(b, f0, ptr[..], ss, false, bigDone[..], o, r, rU, copyEnd[..])
      invariant j == from - |r| && copyEnd[ss] >= -1
      invariant old(copyEnd[ss]) >= from ==> copyEnd[ss] >= j && ptr[..] == old(ptr[..])
      decreases j + 1
    {
      ScanPoint(b, f0, ptr[..], ss, false, bigDone[..], o, r, rU, copyEnd[..]);
      CopyingSizes(b, f0, ptr[..], ss, false, bigDone[..], o, r, rU, copyEnd[..]);
      NextRow(b, f0, ptr[..], ss, false, bigDone[..], o, r, rU, copyEnd[..]);
      ghost var y := ptr[j];
      PredValue(y, nblock);
      CopyTurn(b, f0, ptr[..], ss, false, bigDone[..], o, r, rU, copyEnd[..], y);
      var k: int := ptr[j] as int - 1;
      if k < 0 { k := k + nblock; }
      var c1 := block[k];
      if !bigDone[c1] {
        ptr[copyEnd[c1]] := k;
        copyEnd[c1] := copyEnd[c1] - 1;
      }
      r := r + [y];
      j := j - 1;
      ScanPoint(b, f0, ptr[..], ss, false, bigDone[..], o, r, rU, copyEnd[..]);
    }
    ScanPoint(b, f0, ptr[..], ss, false, bigDone[..], o, r, rU, copyEnd[..]);
    CopyingSizes(b, f0, ptr[..], ss, false, bigDone[..], o, r, rU, copyEnd[..]);
  }

  // ---------- After step 2 ----------

  /** All small buckets of a finished big bucket are marked. */
  ghost predicate Closed(ftab: seq<nat>, done: seq<bool>)
    requires |ftab| == 65537 && |done| == 256
  {
    forall s {:trigger ftab[s]} :: 0 <= s < 65536 && done[s / 256] ==> Marked(ftab[s])
  }

  lemma KeptSorted(b: Block, f: seq<nat>, g: seq<nat>, c: Byte, done: seq<bool>, s: nat)
    requires Placed(b, f) && |g| == |b| && |done| == 256 && s < 65536 && (done[s / 256] || s % 256 != c)
    requires forall k {:trigger g[k]} :: 0 <= k < |b| && f[k] < |b| && Kept(b, c, done, f[k]) ==> g[k] == f[k]
    requires BucketSorted(b, f, s)
    ensures BucketSorted(b, g, s)
  {
    hide Start, Key, Pair;
    StartMono(b, s, s + 1);
    forall k | Start(b, s) <= k < Start(b, s + 1) ensures g[k] == f[k] {
      RowHolds(b, f, s, k);
      PairParts(b, f[k], s / 256, s % 256);
    }
  }

  lemma ColumnKnown(b: Block, f: seq<nat>, g: seq<nat>, c: Byte, done: seq<bool>, ftab: seq<nat>, s: nat)
    requires Placed(b, f) && Placed(b, g) && |done| == 256 && |ftab| == 65537
    requires Known(b, f, ftab) && Closed(ftab, done) && s < 65536 && (Marked(ftab[s]) || s % 256 == c)
    requires forall k {:trigger g[k]} :: 0 <= k < |b| && f[k] < |b| && Kept(b, c, done, f[k]) ==> g[k] == f[k]
    requires forall t {:trigger done[t]} :: 0 <= t < 256 && !done[t] ==> BucketSorted(b, g, t * 256 + c)
    ensures BucketSorted(b, g, s)
  {
    hide Start, Key, Pair, BucketSorted, Placed, Kept;
    PlacedRots(b, g);
    if done[s / 256] || s % 256 != c {
      KnownAt(b, f, ftab, s);
      KeptSorted(b, f, g, c, done, s);
    } else {
      assert s == s / 256 * 256 + c;
    }
  }

  /** The table's marks after step 2. */
  ghost predicate ColumnMarked(before: seq<nat>, after: seq<nat>, c: nat)
    requires |before| == |after| == 65537
  {
    forall s {:trigger after[s]} :: 0 <= s < 65536 ==> (Marked(after[s]) <==> Marked(before[s]) || s % 256 == c)
  }

  method MarkColumn(ftab: array<nat>, ss: Byte, ghost b: Block)
    requires Table(b, ftab[..])
    modifies ftab
    ensures Table(b, ftab[..]) && ColumnMarked(old(ftab[..]), ftab[..], ss)
  {
    hide Start;
    for j := 0 to 256
      invariant Table(b, ftab[..])
      invariant forall s :: 0 <= s < 65536 ==> (Marked(ftab[s]) <==> Marked(old(ftab[s])) || (s % 256 == ss && s / 256 < j))
    {
      ftab[j * 256 + ss] := Mark(ftab[j * 256 + ss]);
    }
  }

  /** Where the copying starts and ends in every bucket [t, ss]. */
  method FindColumn(ftab: array<nat>, ss: Byte, copyStart: array<int>, copyEnd: array<int>, ghost b: Block)
    requires copyStart.Length == copyEnd.Length == 256 && copyStart != copyEnd && Table(b, ftab[..])
    modifies copyStart, copyEnd
    ensures forall t {:trigger copyStart[t]} :: 0 <= t < 256 ==> copyStart[t] == Lo(b, t, ss)
    ensures forall t {:trigger copyEnd[t]} :: 0 <= t < 256 ==> copyEnd[t] == Hi(b, t, ss) - 1
  {
    hide Start;
    for j := 0 to 256
      invariant forall t {:trigger copyStart[t]} :: 0 <= t < j ==> copyStart[t] == Lo(b, t, ss)
      invariant forall t {:trigger copyEnd[t]} :: 0 <= t < j ==> copyEnd[t] == Hi(b, t, ss) - 1
    {
      TableAt(b, ftab[..], j * 256 + ss);
      TableAt(b, ftab[..], j * 256 + ss + 1);
      copyStart[j] := Clear(ftab[j * 256 + ss]);
      copyEnd[j] := Clear(ftab[j * 256 + ss + 1]) - 1;
    }
  }

  lemma TableAt(b: Block, ftab: seq<nat>, s: nat)
    requires Table(b, ftab) && s <= 65536
    ensures Clear(ftab[s]) == Start(b, s)
  {
  }

  lemma AllColumnKnown(b: Block, f: seq<nat>, g: seq<nat>, c: Byte, done: seq<bool>, before: seq<nat>, after: seq<nat>)
    requires Placed(b, f) && Placed(b, g) && |done| == 256 && |before| == |after| == 65537
    requires Known(b, f, before) && Closed(before, done) && ColumnMarked(before, after, c)
    requires forall k {:trigger g[k]} :: 0 <= k < |b| && f[k] < |b| && Kept(b, c, done, f[k]) ==> g[k] == f[k]
    requires forall t {:trigger done[t]} :: 0 <= t < 256 && !done[t] ==> BucketSorted(b, g, t * 256 + c)
    ensures Known(b, g, after)
  {
    hide Start, Key, Pair, BucketSorted, Placed, Kept, Closed, Known;
    PlacedRots(b, g);
    KnownIs(b, g, after) by {
      forall s {:trigger after[s]} | 0 <= s < 65536 && Marked(after[s]) ensures BucketSorted(b, g, s) {
        ColumnKnown(b, f, g, c, done, before, s);
      }
    }
  }

  lemma KnownIs(b: Block, f: seq<nat>, ftab: seq<nat>)
    requires b != [] && |ftab| == 65537
    requires forall s {:trigger ftab[s]} :: 0 <= s < 65536 && Marked(ftab[s]) ==> BucketSorted(b, f, s)
    ensures Known(b, f, ftab)
  {
  }

  /** Step 2: from the sorted rows of big bucket ss, sort every small bucket
      [t, ss] of an open big bucket t, and [ss, ss] itself. */
  method CopyColumn(ptr: array<nat>, block: array<Byte>, ftab: array<nat>, nblock: nat, ss: Byte, bigDone: array<bool>,
                    copyStart: array<int>, copyEnd: array<int>, ghost b: Block)
    requires bigDone.Length == copyStart.Length == copyEnd.Length == 256 && copyStart != copyEnd && ptr != ftab
    requires ptr as object !in {block, copyStart, copyEnd, bigDone} && ftab as object !in {block, copyStart, copyEnd, bigDone}
    requires 2 <= nblock == |b| <= block.Length && block[..nblock] == b && !bigDone[ss]
    requires Placed(b, ptr[..]) && Table(b, ftab[..]) && Known(b, ptr[..], ftab[..]) && Closed(ftab[..], bigDone[..])
    requires SortedAround(b, ptr[..], ss)
    modifies ptr, ftab, copyStart, copyEnd
    ensures Placed(b, ptr[..]) && Table(b, ftab[..]) && Known(b, ptr[..], ftab[..])
    ensures ColumnMarked(old(ftab[..]), ftab[..], ss)
    ensures Constant(b) ==> ptr[..] == old(ptr[..])
  {
    hide Start, Copying, Placed, Known, Closed, SortedAround, ColumnMarked, BucketSorted, Kept, Preds, Constant;
    ghost var f0, done := ptr[..], bigDone[..];
    if Constant(b) { ConstantColumn(b, ss, ss); }
    PlacedRots(b, f0);
    FindColumn(ftab, ss, copyStart, copyEnd, b);
    StartUp(b, f0, ss, done, copyStart[..]);
    ghost var oU, oD := OuterList(b, f0, ss, true), OuterList(b, f0, ss, false);
    TableAt(b, ftab[..], ss * 256);
    TableAt(b, ftab[..], ss * 256 + 256);
    ghost var rU := ScanUp(ptr, block, nblock, ss, Clear(ftab[ss * 256]), bigDone, copyStart, b, f0, oU);
    StartDown(b, f0, ptr[..], ss, done, oU, rU, copyStart[..], copyEnd[..]);
    UpIsGood(b, f0, ptr[..], ss, done, oU, rU, copyStart[..]);
    ghost var rD := ScanDown(ptr, block, nblock, ss, Clear(ftab[ss * 256 + 256]) - 1, bigDone, copyEnd, b, f0, oD, rU);
    Copied(b, f0, ptr[..], ss, done, oU, rU, oD, rD, copyEnd[..]);
    // Assertion 1007.
    assert copyStart[ss] - 1 == copyEnd[ss] || (copyStart[ss] == 0 && copyEnd[ss] == nblock - 1);
    ghost var before := ftab[..];
    MarkColumn(ftab, ss, b);
    AllColumnKnown(b, f0, ptr[..], ss, done, before, ftab[..]);
  }

  lemma UpIsGood(b: Block, f0: seq<nat>, f: seq<nat>, c: Byte, done: seq<bool>, o: seq<nat>, r: seq<nat>, copy: seq<int>)
    requires Copying(b, f0, f, c, true, done, o, r, [], copy)
    ensures Outer(b, c, true, o) && Good(b, c, true, r) && copy[c] == Lo(b, c, c) + |Preds(b, r, c)|
    ensures r == [] ==> copy[c] == Lo(b, c, c)
  {
    CopyPlace(b, f, c, true, done, r, [], copy, c);
  }

  // ---------- Step 3 ----------

  /** Quadrants repeat behind the block, fit 16 bits, and where bytes agree
      they never contradict the order of the rotations. */
  ghost predicate Quadrants(b: Block, quadrant: seq<nat>) {
    && |b| > OVERSHOOT && |quadrant| == |b| + OVERSHOOT
    && (forall k {:trigger quadrant[k]} :: 0 <= k < |quadrant| ==> quadrant[k] <= 65535)
    && (forall k {:trigger quadrant[k]} :: 0 <= k < OVERSHOOT ==> quadrant[|b| + k] == quadrant[k])
    && (forall p, q {:trigger quadrant[p], quadrant[q]} :: 0 <= p < |b| && 0 <= q < |b| ==>
          b[p] == b[q] && quadrant[p] < quadrant[q] ==> Key(b, p, |b|) <= Key(b, q, |b|))
  }

  lemma QuadrantsSound(b: Block, quadrant: seq<nat>)
    requires Quadrants(b, quadrant)
    ensures QuadrantsOrder(quadrant, b)
  {
    hide Key;
    forall p, q {:trigger quadrant[p], quadrant[q]} | 0 <= p < |quadrant| && 0 <= q < |quadrant|
        && b[p % |b|] == b[q % |b|] && quadrant[p] < quadrant[q]
      ensures Key(b, p, |b|) <= Key(b, q, |b|)
    {
      OvershootMod(p, |b|);
      OvershootMod(q, |b|);
      KeyMod(b, p, |b|);
      KeyMod(b, q, |b|);
      assert quadrant[p] == quadrant[p % |b|] && quadrant[q] == quadrant[q % |b|];
    }
  }

  lemma ZeroQuadrants(b: Block, quadrant: seq<nat>)
    requires |b| > OVERSHOOT && |quadrant| == |b| + OVERSHOOT
    requires forall k :: 0 <= k < |quadrant| ==> quadrant[k] == 0
    ensures Quadrants(b, quadrant)
  {
  }

  /** Entries j and later of the big bucket in rows lo..hi have the quadrants
      of their rows, scaled down by p; all other positions are as before. */
  ghost predicate Updated(b: Block, f: seq<nat>, was: seq<nat>, now: seq<nat>, lo: nat, hi: nat, p: nat, j: nat)
    requires p > 0
  {
    && |was| == |now| == |b| + OVERSHOOT && lo + j <= hi <= |f| == |b| && Rots(b, f)
    && (forall i {:trigger f[i]} :: lo + j <= i < hi ==> now[f[i]] == (i - lo) / p)
    && (forall x {:trigger now[x]} :: 0 <= x < |b| && x !in f[lo + j..hi] ==> now[x] == was[x])
    && (forall k {:trigger now[k]} :: 0 <= k < OVERSHOOT ==> now[|b| + k] == now[k])
  }

  lemma UpdateOne(b: Block, f: seq<nat>, was: seq<nat>, now: seq<nat>, lo: nat, hi: nat, p: nat, j: nat)
    requires p > 0 && |b| > OVERSHOOT && Updated(b, f, was, now, lo, hi, p, j + 1) && Permutation(f)
    ensures var a, q := f[lo + j], j / p;
            var one := now[a := q];
            Updated(b, f, was, if a < OVERSHOOT then one[|b| + a := q] else one, lo, hi, p, j)
  {
    var a, q := f[lo + j], j / p;
    assert f[lo + j..hi] == [a] + f[lo + j + 1..hi];
    assert forall i :: lo + j + 1 <= i < hi ==> f[i] != a;
  }

  lemma RowOfByte(b: Block, f: seq<nat>, ss: Byte, x: nat) returns (i: nat)
    requires Placed(b, f) && x < |b| && b[x] == ss
    ensures Start(b, ss * 256) <= i < Start(b, ss * 256 + 256) && i < |f| && f[i] == x
  {
    hide Start;
    i := RowOf(b, f, x);
    StartMono(b, ss * 256, Pair(b, x));
    StartMono(b, Pair(b, x) + 1, ss * 256 + 256);
  }

  lemma ByteOfRow(b: Block, f: seq<nat>, ss: Byte, i: nat)
    requires Placed(b, f) && Start(b, ss * 256) <= i < Start(b, ss * 256 + 256)
    ensures i < |f| && f[i] < |b| && b[f[i]] == ss
  {
    hide Start;
    RowWithin(b, f, ss * 256, ss * 256 + 256, i);
  }

  lemma DivMono(x: nat, y: nat, p: nat)
    requires p > 0 && x / p < y / p
    ensures x < y
  {
    DivDef(x, p);
    DivDef(y, p);
    MulMono(x / p + 1, y / p, p);
    Distribute(x / p, 1, p);
  }

  lemma UpdatedSmall(b: Block, f: seq<nat>, was: seq<nat>, now: seq<nat>, ss: Byte, p: nat, x: nat)
    requires Placed(b, f) && p > 0 && Quadrants(b, was) && x < |b|
    requires Updated(b, f, was, now, Start(b, ss * 256), Start(b, ss * 256 + 256), p, 0)
    requires (Start(b, ss * 256 + 256) - Start(b, ss * 256)) / p <= 65534
    ensures now[x] <= 65535 && (b[x] != ss ==> now[x] == was[x])
  {
    hide Start, Key, Placed;
    var lo, hi := Start(b, ss * 256), Start(b, ss * 256 + 256);
    if b[x] == ss {
      var i := RowOfByte(b, f, ss, x);
      if now[x] > 65535 { DivMono(hi - lo, i - lo, p); }
    } else {
      forall i | lo <= i < hi ensures f[i] != x { ByteOfRow(b, f, ss, i); }
    }
  }

  lemma UpdatedSound(b: Block, f: seq<nat>, was: seq<nat>, now: seq<nat>, ss: Byte, p: nat)
    requires Placed(b, f) && p > 0 && Quadrants(b, was)
    requires Ordered(b, f, Start(b, ss * 256), Start(b, ss * 256 + 256))
    requires Updated(b, f, was, now, Start(b, ss * 256), Start(b, ss * 256 + 256), p, 0)
    requires (Start(b, ss * 256 + 256) - Start(b, ss * 256)) / p <= 65534
    ensures Quadrants(b, now)
  {
    hide Start, Key, Placed;
    var lo, hi := Start(b, ss * 256), Start(b, ss * 256 + 256);
    forall x {:trigger now[x]} | 0 <= x < |b| ensures now[x] <= 65535 && (b[x] != ss ==> now[x] == was[x]) {
      UpdatedSmall(b, f, was, now, ss, p, x);
    }
    forall x, y {:trigger now[x], now[y]} | 0 <= x < |b| && 0 <= y < |b| && b[x] == b[y] && now[x] < now[y]
      ensures Key(b, x, |b|) <= Key(b, y, |b|)
    {
      if b[x] == ss {
        var i := RowOfByte(b, f, ss, x);
        var j := RowOfByte(b, f, ss, y);
        DivMono(i - lo, j - lo, p);
        assert Key(b, f[i], |b|) <= Key(b, f[j], |b|);
      }
    }
    forall k {:trigger now[k]} | 0 <= k < |now| ensures now[k] <= 65535 {
      if k >= |b| { assert now[|b| + (k - |b|)] == now[k - |b|]; }
    }
  }

  /** Step 3: the finished big bucket's order becomes quadrants. */
  method UpdateQuadrants(ptr: array<nat>, quadrant: array<nat>, ftab: array<nat>, nblock: nat, ss: Byte, ghost b: Block)
    requires ptr != quadrant && ftab != quadrant && nblock == |b| <= 900000 && Table(b, ftab[..])
    requires Placed(b, ptr[..]) && Quadrants(b, quadrant[..])
    requires Ordered(b, ptr[..], Start(b, ss * 256), Start(b, ss * 256 + 256))
    modifies quadrant
    ensures Quadrants(b, quadrant[..])
  {
    hide Start, Placed, Ordered, Quadrants, Updated;
    TableAt(b, ftab[..], ss * 256);
    TableAt(b, ftab[..], ss * 256 + 256);
    StartMono(b, ss * 256, ss * 256 + 256);
    PlacedRots(b, ptr[..]);
    ghost var f, was := ptr[..], quadrant[..];
    var bbStart := Clear(ftab[ss * 256]);
    var bbSize := Clear(ftab[ss * 256 + 256]) - bbStart;
    var shifts := 0;
    while bbSize / Pow2(shifts) > 65534
      invariant shifts <= 4 && quadrant[..] == was
      decreases 4 - shifts
    {
      ShiftsEnough(bbSize, shifts);
      shifts := shifts + 1;
    }
    QuadrantSizes(b, was);
    UpdateStart(b, f, was, bbStart, bbStart + bbSize, Pow2(shifts));
    for j := bbSize downto 0
      invariant Updated(b, f, was, quadrant[..], bbStart, bbStart + bbSize, Pow2(shifts), j)
      invariant ptr[..] == f && quadrant.Length == nblock + OVERSHOOT
    {
      UpdatePlace(b, f, was, quadrant[..], bbStart, bbStart + bbSize, Pow2(shifts), j);
      var a2update := ptr[bbStart + j];
      var qVal := j / Pow2(shifts);
      quadrant[a2update] := qVal;
      if a2update < OVERSHOOT {
        quadrant[a2update + nblock] := qVal;
      }
    }
    UpdatedSound(b, f, was, quadrant[..], ss, Pow2(shifts));
  }

  lemma ShiftsEnough(size: nat, shifts: nat)
    requires size <= 900000 && size / Pow2(shifts) > 65534 && shifts <= 4
    ensures shifts < 4
  {
    assert Pow2(4) == 16;
  }

  lemma QuadrantSizes(b: Block, quadrant: seq<nat>)
    requires Quadrants(b, quadrant)
    ensures |b| > OVERSHOOT && |quadrant| == |b| + OVERSHOOT
  {
  }

  lemma UpdateStart(b: Block, f: seq<nat>, was: seq<nat>, lo: nat, hi: nat, p: nat)
    requires p > 0 && Quadrants(b, was) && Placed(b, f) && lo <= hi <= |b|
    ensures Updated(b, f, was, was, lo, hi, p, hi - lo)
  {
  }

  lemma UpdatePlace(b: Block, f: seq<nat>, was: seq<nat>, now: seq<nat>, lo: nat, hi: nat, p: nat, j: nat)
    requires p > 0 && |b| > OVERSHOOT && Placed(b, f) && Updated(b, f, was, now, lo, hi, p, j + 1)
    ensures lo + j < |f| && f[lo + j] < |b|
    ensures var a, q := f[lo + j], j / p;
            var one := now[a := q];
            Updated(b, f, was, if a < OVERSHOOT then one[a + |b| := q] else one, lo, hi, p, j)
  {
    hide Start;
    UpdateOne(b, f, was, now, lo, hi, p, j);
    if f[lo + j] < OVERSHOOT {
      assert |b| + f[lo + j] == f[lo + j] + |b|;
    }
  }

  // ---------- The main loop ----------

  /** The first i entries of the running order are the finished big buckets. */
  ghost predicate Finished(ro: seq<nat>, done: seq<bool>, i: nat) {
    && BigOrder(ro) && |done| == 256 && i <= 256
    && forall c {:trigger done[c]} :: 0 <= c < 256 ==> (done[c] <==> c in ro[..i])
  }

  lemma NextIsOpen(ro: seq<nat>, done: seq<bool>, i: nat)
    requires Finished(ro, done, i) && i < 256
    ensures ro[i] < 256 && !done[ro[i]] && Finished(ro, done[ro[i] := true], i + 1)
  {
    assert ro[..i + 1] == ro[..i] + [ro[i]];
    assert forall k :: 0 <= k < i ==> ro[..i][k] == ro[k] != ro[i];
  }

  lemma AllFinished(ro: seq<nat>, done: seq<bool>)
    requires Finished(ro, done, 256)
    ensures forall c {:trigger done[c]} :: 0 <= c < 256 ==> done[c]
  {
    forall c {:trigger done[c]} | 0 <= c < 256 ensures done[c] {
      Onto(ro, c);
      assert ro[..256] == ro;
    }
  }

  lemma ClosedNext(before: seq<nat>, middle: seq<nat>, after: seq<nat>, done: seq<bool>, ss: Byte)
    requires |before| == |middle| == |after| == 65537 && |done| == 256 && Closed(before, done)
    requires forall s :: 0 <= s < 65536 ==>
      (Marked(middle[s]) <==> Marked(before[s]) || (ss * 256 <= s < ss * 256 + 256 && s != ss * 256 + ss))
    requires ColumnMarked(middle, after, ss)
    ensures Closed(after, done[ss := true])
  {
    forall s {:trigger after[s]} | 0 <= s < 65536 && done[ss := true][s / 256] ensures Marked(after[s]) {
      if s / 256 == ss {
        assert s == ss * 256 + s % 256;
      } else {
        assert Marked(before[s]);
      }
    }
  }

  lemma ClosedStays(before: seq<nat>, middle: seq<nat>, done: seq<bool>, ss: Byte)
    requires |before| == |middle| == 65537 && |done| == 256 && Closed(before, done)
    requires forall s :: 0 <= s < 65536 ==>
      (Marked(middle[s]) <==> Marked(before[s]) || (ss * 256 <= s < ss * 256 + 256 && s != ss * 256 + ss))
    ensures Closed(middle, done)
  {
    forall s {:trigger middle[s]} | 0 <= s < 65536 && done[s / 256] ensures Marked(middle[s]) {
      assert Marked(before[s]);
    }
  }

  lemma BigIsOrdered(b: Block, f: seq<nat>, ftab: seq<nat>, done: seq<bool>, ss: Byte)
    requires Placed(b, f) && |b| >= 2 && |ftab| == 65537 && |done| == 256
    requires Known(b, f, ftab) && Closed(ftab, done) && done[ss]
    ensures Ordered(b, f, Start(b, ss * 256), Start(b, ss * 256 + 256))
  {
    hide Start, BucketSorted, Placed;
    PlacedRots(b, f);
    forall s | ss * 256 <= s < ss * 256 + 256 ensures BucketSorted(b, f, s) {
      assert s / 256 == ss;
      assert Marked(ftab[s]);
    }
    BucketsTogether(b, f, ss * 256, ss * 256 + 256);
  }

  lemma AllSorted(b: Block, f: seq<nat>, ftab: seq<nat>, quadrant: seq<nat>, done: seq<bool>)
    requires BetweenBuckets(b, f, ftab, quadrant, done) && forall c {:trigger done[c]} :: 0 <= c < 256 ==> done[c]
    ensures SortsRotations(b, f)
  {
    hide Start, BucketSorted, Key;
    forall s | 0 <= s < 65536 ensures BucketSorted(b, f, s) {
      assert done[s / 256];
      assert Marked(ftab[s]);
    }
    BucketsTogether(b, f, 0, 65536);
    StartEnds(b);
  }

  lemma FreshTable(b: Block, f: seq<nat>, ftab: seq<nat>)
    requires b != [] && |b| <= 900000 && |ftab| == 65537 && forall s :: 0 <= s < 65537 ==> ftab[s] == Start(b, s)
    ensures Table(b, ftab) && Known(b, f, ftab) && forall s :: 0 <= s < 65537 ==> !Marked(ftab[s])
  {
    hide BucketSorted;
  }

  /** What holds between big buckets. */
  ghost predicate BetweenBuckets(b: Block, ptr: seq<nat>, ftab: seq<nat>, quadrant: seq<nat>, done: seq<bool>) {
    && Placed(b, ptr) && Table(b, ftab) && Known(b, ptr, ftab) && Quadrants(b, quadrant)
    && |done| == 256 && Closed(ftab, done)
  }

  /** The three steps for one big bucket. */
  method FinishBucket(ptr: array<nat>, block: array<Byte>, quadrant: array<nat>, ftab: array<nat>, nblock: nat, ss: Byte,
                      last: bool, bigDone: array<bool>, copyStart: array<int>, copyEnd: array<int>, budget: int, ghost b: Block)
    returns (budget': int)
    requires ptr != ftab && ptr != quadrant && quadrant != ftab && block as object !in {ptr, ftab, quadrant}
    requires bigDone.Length == copyStart.Length == copyEnd.Length == 256 && copyStart != copyEnd
    requires ptr as object !in {copyStart, copyEnd, bigDone} && ftab as object !in {copyStart, copyEnd, bigDone}
    requires quadrant as object !in {copyStart, copyEnd, bigDone} && bigDone as object !in {copyStart, copyEnd} && bigDone as object != block
    requires block as object !in {copyStart, copyEnd} && budget >= 0 && ftab.Length == 65537
    requires nblock == |b| <= 900000 && block.Length >= nblock && block[..nblock] == b && Overshot(block[..], b)
    requires BetweenBuckets(b, ptr[..], ftab[..], quadrant[..], bigDone[..]) && !bigDone[ss]
    modifies ptr, quadrant, ftab, bigDone, copyStart, copyEnd
    ensures bigDone[..] == old(bigDone[..])[ss := true] || budget' < 0
    ensures budget' >= 0 ==> BetweenBuckets(b, ptr[..], ftab[..], quadrant[..], bigDone[..])
    ensures Constant(b) ==> ptr[..] == old(ptr[..]) && budget' == budget
  {
    hide Start, Placed, Known, Closed, Table, Quadrants, Comparable, ColumnMarked, SortedAround, Ordered, Constant;
    PlacedRots(b, ptr[..]);
    QuadrantSizes(b, quadrant[..]);
    QuadrantsSound(b, quadrant[..]);
    IsComparable(block[..], quadrant[..], b);
    ghost var before, done := ftab[..], bigDone[..];
    budget' := CompleteBucket(ptr, block, quadrant, ftab, nblock, ss, budget, b);
    if budget' < 0 { return; }
    ghost var middle := ftab[..];
    ClosedStays(before, middle, done, ss);
    CopyColumn(ptr, block, ftab, nblock, ss, bigDone, copyStart, copyEnd, b);
    ClosedNext(before, middle, ftab[..], done, ss);
    bigDone[ss] := true;
    assert bigDone[..] == done[ss := true];
    BigIsOrdered(b, ptr[..], ftab[..], bigDone[..], ss);
    if !last {
      UpdateQuadrants(ptr, quadrant, ftab, nblock, ss, b);
    }
  }

  /** mainSort: unless the budget runs out, ptr lists the rotations in order;
      the block stays as it was. */
  method Sort(ptr: array<nat>, block: array<Byte>, quadrant: array<nat>, ftab: array<nat>, nblock: nat, budget: int)
    returns (budget': int)
    requires ptr != ftab && ptr != quadrant && quadrant != ftab && block as object !in {ptr, ftab, quadrant}
    requires OVERSHOOT < nblock == ptr.Length <= 900000 && block.Length == quadrant.Length == nblock + OVERSHOOT
    requires ftab.Length == 65537 && budget >= 0
    modifies ptr, block, quadrant, ftab
    ensures block[..nblock] == old(block[..nblock])
    ensures budget' >= 0 ==> SortsRotations(old(block[..nblock]), ptr[..])
    ensures old(Constant(block[..nblock])) ==> InOrder(ptr[..]) && budget' == budget
  {
    hide Constant, InOrder, Start, Placed, Known, Closed, Table, Quadrants, BigOrder, Ascends, Finished, BetweenBuckets;
    ghost var b := block[..nblock];
    CountPairs(block, quadrant, ftab, nblock);
    Overshoot(block, quadrant, nblock);
    SumPairs(ftab, b);
    PlacePairs(ptr, block, ftab, nblock);
    var bigDone, runningOrder := new bool[256](_ => false), new nat[256];
    var copyStart, copyEnd := new int[256], new int[256];
    OrderBuckets(runningOrder, ftab);
    budget' := budget;
    StartBetween(b, ptr[..], ftab[..], quadrant[..], bigDone[..]);
    StartFinished(runningOrder[..], bigDone[..]);
    for i := 0 to 256
      invariant block[..nblock] == b && Overshot(block[..], b) && budget' >= 0
      invariant BetweenBuckets(b, ptr[..], ftab[..], quadrant[..], bigDone[..]) && Finished(runningOrder[..], bigDone[..], i)
      invariant Constant(b) ==> InOrder(ptr[..]) && budget' == budget
    {
      // Assertion 1006: the next big bucket is open.
      NextIsOpen(runningOrder[..], bigDone[..], i);
      budget' := FinishBucket(ptr, block, quadrant, ftab, nblock, runningOrder[i], i == 255, bigDone, copyStart, copyEnd, budget', b);
      if budget' < 0 { return; }
    }
    AllFinished(runningOrder[..], bigDone[..]);
    AllSorted(b, ptr[..], ftab[..], quadrant[..], bigDone[..]);
  }

  lemma StartFinished(ro: seq<nat>, done: seq<bool>)
    requires BigOrder(ro) && |done| == 256 && (forall c :: 0 <= c < 256 ==> !done[c])
    ensures Finished(ro, done, 0)
  {
  }

  lemma StartBetween(b: Block, f: seq<nat>, ftab: seq<nat>, quadrant: seq<nat>, done: seq<bool>)
    requires Placed(b, f) && OVERSHOOT < |b| <= 900000 && |ftab| == 65537 && |quadrant| == |b| + OVERSHOOT && |done| == 256
    requires (forall s :: 0 <= s < 65537 ==> ftab[s] == Start(b, s)) && (forall k :: 0 <= k < |quadrant| ==> quadrant[k] == 0)
    requires forall c :: 0 <= c < 256 ==> !done[c]
    ensures BetweenBuckets(b, f, ftab, quadrant, done)
  {
    hide Start, Key, Pair, BucketSorted;
    FreshTable(b, f, ftab);
    ZeroQuadrants(b, quadrant);
  }

  lemma IsComparable(block: seq<nat>, quadrant: seq<nat>, b: Block)
    requires Overshot(block, b) && QuadrantsOrder(quadrant, b)
    ensures Comparable(block, quadrant, b)
  {
  }
}
