/** fallbackSort (blocksort.c): sort all rotations of a block by doubling the
    number of bytes compared, one bucket refinement per pass. */
module FallbackSort {
  import opened Arith
  import opened CountingSort
  import opened Rotations
  import opened HeaderBits
  import QS = FallbackQSort

  // ---------- What the buckets mean ----------

  /** Rows k - 1 and k are in order on d bytes, and bit k tells them apart. */
  ghost predicate Boundary(b: Block, f: seq<nat>, bits: seq<bool>, k: nat, d: nat)
    requires b != [] && 0 < k < |f| && k < |bits|
  {
    && Key(b, f[k - 1], d) <= Key(b, f[k], d)
    && (bits[k] <==> Key(b, f[k - 1], d) != Key(b, f[k], d))
  }

  /** Row k's boundary: on 2h bytes below m, on h bytes from there on. */
  ghost predicate RowOk(b: Block, f: seq<nat>, bits: seq<bool>, h: nat, m: nat, k: nat)
    requires b != [] && 0 < k < |f| && k < |bits|
  {
    Boundary(b, f, bits, k, if k < m then 2 * h else h)
  }

  /** Header bits: one per row, then alternating sentinels. */
  ghost predicate Framed(b: Block, f: seq<nat>, bits: seq<bool>) {
    && b != [] && |f| == |b| && Permutation(f) && |bits| == |b| + 64
    && bits[0] && bits[|b|] && !bits[|b| + 1]
  }

  /** Rows below m are sorted and delimited on 2h bytes, the others on h. */
  ghost predicate Refining(b: Block, f: seq<nat>, bits: seq<bool>, h: nat, m: nat) {
    && Framed(b, f, bits)
    && (forall k :: 0 < k < |b| ==> RowOk(b, f, bits, h, m, k))
  }

  /** A bucket boundary on h bytes is one on 2h bytes. */
  lemma HeadDeepens(b: Block, i: nat, j: nat, h: nat)
    requires b != [] && Key(b, i, h) < Key(b, j, h)
    ensures Key(b, i, 2 * h) < Key(b, j, 2 * h)
  {
    KeySplit(b, i, j, h, h);
  }

  /** Between two header bits all rows agree on h bytes. */
  lemma {:induction false} BucketAgrees(b: Block, f: seq<nat>, bits: seq<bool>, h: nat, m: nat, l: nat, k: nat)
    requires Refining(b, f, bits, h, m) && m <= l <= k < |b|
    requires forall j :: l < j <= k ==> !bits[j]
    ensures Key(b, f[l], h) == Key(b, f[k], h)
    decreases k
  {
    hide Key;
    if l < k {
      BucketAgrees(b, f, bits, h, m, l, k - 1);
      assert RowOk(b, f, bits, h, m, k);
    }
  }

  // ---------- Equivalence classes ----------

  /** eclass[x] orders rotations x by the h bytes that start h further on. */
  ghost predicate Classes(e: seq<nat>, b: Block, h: nat) {
    && b != [] && |e| >= |b|
    && (forall x, y :: 0 <= x < |b| && 0 <= y < |b| ==>
          (e[x] < e[y] <==> Key(b, x + h, h) < Key(b, y + h, h)))
  }

  lemma ClassesOrder(e: seq<nat>, b: Block, h: nat, x: nat, y: nat)
    requires Classes(e, b, h) && x < |b| && y < |b| && Key(b, x, h) == Key(b, y, h)
    ensures e[x] <= e[y] ==> Key(b, x, 2 * h) <= Key(b, y, 2 * h)
    ensures e[x] == e[y] <==> Key(b, x, 2 * h) == Key(b, y, 2 * h)
  {
    hide Key;
    KeySplit(b, x, y, h, h);
    assert e[y] < e[x] <==> Key(b, y + h, h) < Key(b, x + h, h);
  }

  /** The last header bit at or before row i. */
  ghost function HeadOf(bits: seq<bool>, i: nat): nat
    requires i < |bits| && bits[0]
  {
    if bits[i] then i else HeadOf(bits, i - 1)
  }

  lemma {:induction false} StartBound(bits: seq<bool>, i: nat)
    requires i < |bits| && bits[0]
    ensures HeadOf(bits, i) <= i
  {
    if !bits[i] {
      StartBound(bits, i - 1);
    }
  }

  lemma {:induction false} StartOrder(b: Block, f: seq<nat>, bits: seq<bool>, h: nat, p: nat, q: nat)
    requires Refining(b, f, bits, h, 0) && p <= q < |b|
    ensures HeadOf(bits, p) <= HeadOf(bits, q) && Key(b, f[p], h) <= Key(b, f[q], h)
    ensures HeadOf(bits, p) == HeadOf(bits, q) <==> Key(b, f[p], h) == Key(b, f[q], h)
    decreases q
  {
    hide Key;
    StartBound(bits, p);
    if p < q {
      StartOrder(b, f, bits, h, p, q - 1);
      assert RowOk(b, f, bits, h, 0, q);
    }
  }

  /** fmap[i] - H, wrapped. */
  function Back(x: nat, h: nat, n: nat): nat
    requires x < n && h <= n
  {
    if x < h then x + n - h else x - h
  }

  lemma BackForth(x: nat, h: nat, n: nat)
    requires x < n && 1 <= h <= n
    ensures Back(x, h, n) < n && (Back(x, h, n) + h) % n == x
  {
    if x < h {
      DivUnique(x + n, n, 1, x);
    } else {
      DivUnique(x, n, 0, x);
    }
  }

  lemma ForthBack(x: nat, h: nat, n: nat)
    requires x < n && 1 <= h <= n
    ensures (x + h) % n < n && Back((x + h) % n, h, n) == x
  {
    if x + h < n {
      DivUnique(x + h, n, 0, x + h);
    } else {
      DivUnique(x + h, n, 1, x + h - n);
    }
  }

  /** The classes of the first i rows have been written. */
  ghost predicate Written(e: seq<nat>, f: seq<nat>, bits: seq<bool>, h: nat, i: nat) {
    && |e| >= |f| && i <= |f| <= |bits| && |f| > 0 && bits[0] && 1 <= h <= |f| && Permutation(f)
    && (forall q :: 0 <= q < i ==> Back(f[q], h, |f|) < |f| && e[Back(f[q], h, |f|)] == HeadOf(bits, q))
  }

  lemma WriteOne(e: seq<nat>, f: seq<nat>, bits: seq<bool>, h: nat, i: nat)
    requires Written(e, f, bits, h, i) && i < |f|
    ensures Back(f[i], h, |f|) < |f|
    ensures Written(e[Back(f[i], h, |f|) := HeadOf(bits, i)], f, bits, h, i + 1)
  {
    hide HeadOf;
    var k := Back(f[i], h, |f|);
    BackForth(f[i], h, |f|);
    forall q | 0 <= q < i ensures Back(f[q], h, |f|) < |f| && Back(f[q], h, |f|) != k {
      BackForth(f[q], h, |f|);
    }
  }

  lemma AllWritten(e: seq<nat>, b: Block, f: seq<nat>, bits: seq<bool>, h: nat)
    requires Refining(b, f, bits, h, 0) && Written(e, f, bits, h, |f|)
    ensures Classes(e, b, h)
  {
    hide Key, HeadOf;
    forall x, y | 0 <= x < |b| && 0 <= y < |b|
      ensures e[x] < e[y] <==> Key(b, x + h, h) < Key(b, y + h, h)
    {
      var p := RowOf(e, b, f, bits, h, x);
      var q := RowOf(e, b, f, bits, h, y);
      if p <= q {
        StartOrder(b, f, bits, h, p, q);
      } else {
        StartOrder(b, f, bits, h, q, p);
      }
    }
  }

  lemma RowOf(e: seq<nat>, b: Block, f: seq<nat>, bits: seq<bool>, h: nat, x: nat) returns (p: nat)
    requires Refining(b, f, bits, h, 0) && Written(e, f, bits, h, |f|) && x < |b|
    ensures p < |f| && e[x] == HeadOf(bits, p) && Key(b, x + h, h) == Key(b, f[p], h)
  {
    hide Key, HeadOf;
    ForthBack(x, h, |b|);
    Onto(f, (x + h) % |b|);
    p :| 0 <= p < |f| && f[p] == (x + h) % |b|;
    KeyMod(b, x + h, h);
  }

  // ---------- Refining one bucket ----------

  /** The header bits after the new boundaries of l..r have been marked. */
  ghost function Marked(bits: seq<bool>, g: seq<nat>, e: seq<nat>, l: nat, r: nat): (c: seq<bool>)
    requires l <= r < |g| <= |bits| && forall p :: 0 <= p < |g| ==> g[p] < |e|
    ensures |c| == |bits|
  {
    seq(|bits|, k requires 0 <= k < |bits| =>
      if l < k <= r then bits[k] || e[g[k - 1]] != e[g[k]] else bits[k])
  }

  /** l..r is the next bucket: singletons before it, no header bit inside. */
  ghost predicate NextBucket(bits: seq<bool>, m: nat, l: nat, r: nat, n: nat) {
    && m <= l < r < n && n < |bits|
    && (forall j :: m <= j <= l ==> bits[j])
    && (forall j :: l < j <= r ==> !bits[j])
    && bits[r + 1]
  }

  lemma SameKeysInBucket(b: Block, f: seq<nat>, g: seq<nat>, bits: seq<bool>, h: nat, m: nat, l: nat, r: nat, p: nat)
    requires Refining(b, f, bits, h, m) && NextBucket(bits, m, l, r, |b|)
    requires QS.Rearranged(f, g, l, r) && l <= p <= r
    ensures Key(b, g[p], h) == Key(b, f[l], h)
  {
    hide Key, QS.Rearranged;
    var q := QS.RearrangedFrom(f, g, l, r, p);
    BucketAgrees(b, f, bits, h, m, l, q);
  }

  lemma RefineBoundary(b: Block, f: seq<nat>, g: seq<nat>, e: seq<nat>, bits: seq<bool>, h: nat,
                       m: nat, l: nat, r: nat, k: nat)
    requires Refining(b, f, bits, h, m) && NextBucket(bits, m, l, r, |b|)
    requires QS.Rearranged(f, g, l, r) && Permutation(g) && Classes(e, b, h)
    requires QS.InBounds(g, e) && QS.SortedRange(g, e, l, r) && 0 < k < |b|
    ensures RowOk(b, g, Marked(bits, g, e, l, r), h, r + 1, k)
  {
    hide Key, Permutation;
    var c := Marked(bits, g, e, l, r);
    assert RowOk(b, f, bits, h, m, k);
    if l < k <= r {
      SameKeysInBucket(b, f, g, bits, h, m, l, r, k - 1);
      SameKeysInBucket(b, f, g, bits, h, m, l, r, k);
      assert QS.Cls(g, e, k - 1) <= QS.Cls(g, e, k);
      PermutationAt(g, k - 1);
      PermutationAt(g, k);
      ClassesOrder(e, b, h, g[k - 1], g[k]);
    } else {
      if k == l {
        SameKeysInBucket(b, f, g, bits, h, m, l, r, l);
      }
      if k == r + 1 {
        SameKeysInBucket(b, f, g, bits, h, m, l, r, r);
        BucketAgrees(b, f, bits, h, m, l, r);
      }
      if m <= k <= l {
        HeadDeepens(b, f[k - 1], f[k], h);
        HeadDeepens(b, g[k - 1], g[k], h);
      }
    }
  }

  lemma PermutationAt(g: seq<nat>, k: nat)
    requires Permutation(g) && k < |g|
    ensures g[k] < |g|
  {
  }

  lemma RearrangedPermutation(f: seq<nat>, g: seq<nat>, lo: int, hi: int)
    requires Permutation(f) && QS.Rearranged(f, g, lo, hi)
    ensures Permutation(g)
  {
    assert f == f[..lo] + f[lo..hi + 1] + f[hi + 1..];
    assert g == g[..lo] + g[lo..hi + 1] + g[hi + 1..];
    assert f[..lo] == g[..lo] && f[hi + 1..] == g[hi + 1..];
    assert multiset(f) == multiset(g);
    forall k | 0 <= k < |g| ensures g[k] < |g| {
      assert g[k] in multiset(g);
      assert g[k] in f;
    }
    forall j, k | 0 <= j < k < |g| ensures g[j] != g[k] {
      CountOnce(f, g[j]);
      if g[j] == g[k] {
        CountTwice(g, j, k);
      }
    }
  }

  lemma {:induction false} CountOnce(f: seq<nat>, v: nat)
    requires forall j, k :: 0 <= j < k < |f| ==> f[j] != f[k]
    ensures multiset(f)[v] <= 1
  {
    if f != [] {
      var rest := f[..|f| - 1];
      CountOnce(rest, v);
      assert f == rest + [f[|f| - 1]];
      assert v in multiset(rest) <==> v in rest;
    }
  }

  lemma CountTwice(g: seq<nat>, j: nat, k: nat)
    requires j < k < |g| && g[j] == g[k]
    ensures multiset(g)[g[j]] >= 2
  {
    assert g == g[..j] + [g[j]] + g[j + 1..k] + [g[k]] + g[k + 1..];
  }

  /** Sorting bucket l..r by class and marking it refines every row up to r. */
  lemma RefineBucket(b: Block, f: seq<nat>, g: seq<nat>, e: seq<nat>, bits: seq<bool>, h: nat,
                     m: nat, l: nat, r: nat)
    requires Refining(b, f, bits, h, m) && NextBucket(bits, m, l, r, |b|) && Classes(e, b, h)
    requires |g| == |f| && QS.Rearranged(f, g, l, r) && QS.InBounds(g, e) && QS.SortedRange(g, e, l, r)
    ensures Refining(b, g, Marked(bits, g, e, l, r), h, r + 1)
    ensures Marked(bits, g, e, l, r)[r + 1]
  {
    hide Key, Boundary, RowOk, QS.Rearranged, QS.SortedRange, Classes;
    RearrangedPermutation(f, g, l, r);
    var c, next := Marked(bits, g, e, l, r), r + 1;
    forall k | 0 < k < |b| ensures RowOk(b, g, c, h, next, k) {
      RefineBoundary(b, f, g, e, bits, h, m, l, r, k);
    }
  }

  /** Only singletons are left: every row is refined. */
  lemma RefineSingletons(b: Block, f: seq<nat>, bits: seq<bool>, h: nat, m: nat)
    requires Refining(b, f, bits, h, m) && m <= |b| && forall j :: m <= j < |b| ==> bits[j]
    ensures Refining(b, f, bits, h, |b|)
  {
    hide Key, Permutation;
    forall k | 0 < k < |b| ensures RowOk(b, f, bits, h, |b|, k) {
      assert RowOk(b, f, bits, h, m, k);
      if m <= k {
        HeadDeepens(b, f[k - 1], f[k], h);
      }
    }
  }

  // ---------- The end of the refinement ----------

  lemma {:induction false} SortedByBoundaries(b: Block, f: seq<nat>, bits: seq<bool>, h: nat, p: nat, q: nat)
    requires Refining(b, f, bits, h, |b|) && p <= q < |b|
    ensures Key(b, f[p], 2 * h) <= Key(b, f[q], 2 * h)
    ensures p < q && bits[q] ==> Key(b, f[p], 2 * h) < Key(b, f[q], 2 * h)
    decreases q
  {
    hide Key;
    if p < q {
      SortedByBoundaries(b, f, bits, h, p, q - 1);
      assert RowOk(b, f, bits, h, |b|, q);
    }
  }

  /** Either 2h bytes cover the block or no two rows agree on them. */
  lemma RefinedIsSorted(b: Block, f: seq<nat>, bits: seq<bool>, h: nat)
    requires Refining(b, f, bits, h, |b|)
    requires 2 * h > |b| || forall k :: 0 <= k < |b| ==> bits[k]
    ensures SortsRotations(b, f)
  {
    hide Key;
    var n := |b|;
    forall p, q | 0 <= p < q < n ensures Key(b, f[p], n) <= Key(b, f[q], n) {
      SortedByBoundaries(b, f, bits, h, p, q);
      if 2 * h >= n {
        KeyPrefix(b, f[p], f[q], n, 2 * h);
      } else {
        KeySplit(b, f[p], f[q], 2 * h, n - 2 * h);
      }
    }
  }

  lemma NextPass(b: Block, f: seq<nat>, bits: seq<bool>, h: nat)
    requires Refining(b, f, bits, h, |b|)
    ensures Refining(b, f, bits, 2 * h, 0)
  {
    hide Key;
    forall k | 0 < k < |b| ensures RowOk(b, f, bits, 2 * h, 0, k) {
      assert RowOk(b, f, bits, h, |b|, k);
    }
  }

  // ---------- The initial radix sort ----------

  /** One past the last row of the bucket of byte c. */
  ghost function High(b: Block, c: nat): (r: nat)
    ensures r <= |b|
  {
    CountBelow(b, c + 1, |b|)
  }

  lemma HighIsNext(b: Block, c: nat)
    ensures High(b, c) == CountBelow(b, c, |b|) + |Positions(b, c, |b|)|
  {
    OrderCounts(b, c + 1, |b|);
  }

  lemma BucketsApart(b: Block, c: nat, d: nat)
    requires c < d
    ensures High(b, c) <= CountBelow(b, d, |b|)
  {
    CountBelowMono(b, c + 1, d, |b|);
  }

  /** Where byte i lands: each bucket is filled from its end. */
  ghost function RevRow(b: Block, i: nat): int
    requires i < |b|
  {
    High(b, b[i]) - 1 - |Positions(b, b[i], i)|
  }

  lemma RevRowRange(b: Block, i: nat)
    requires i < |b|
    ensures CountBelow(b, b[i], |b|) <= RevRow(b, i) < High(b, b[i]) <= |b|
  {
    HighIsNext(b, b[i]);
    PositionsGrow(b, b[i], i, |b|);
  }

  lemma RevRowInjective(b: Block, i: nat, j: nat)
    requires i < j < |b|
    ensures RevRow(b, i) != RevRow(b, j)
  {
    RevRowRange(b, i);
    RevRowRange(b, j);
    if b[i] < b[j] {
      BucketsApart(b, b[i], b[j]);
    } else if b[j] < b[i] {
      BucketsApart(b, b[j], b[i]);
    } else {
      PositionsGrow(b, b[i], i, j);
    }
  }

  /** Row k of f holds a byte of the bucket row k belongs to. */
  ghost predicate InBuckets(b: Block, f: seq<nat>) {
    && |f| == |b|
    && (forall k :: 0 <= k < |b| ==>
          f[k] < |b| && CountBelow(b, b[f[k]], |b|) <= k < High(b, b[f[k]]))
  }

  lemma RadixResult(b: Block, f: seq<nat>)
    requires |f| == |b|
    requires forall i :: 0 <= i < |b| ==> 0 <= RevRow(b, i) < |b| && f[RevRow(b, i)] == i
    ensures Permutation(f) && InBuckets(b, f)
  {
    hide CountBelow, Positions, RevRow, High;
    var rr: seq<nat> := seq(|b|, i requires 0 <= i < |b| => RevRow(b, i));
    forall i, j | 0 <= i < j < |rr| ensures rr[i] != rr[j] {
      RevRowInjective(b, i, j);
    }
    forall k | 0 <= k < |b|
      ensures f[k] < |b| && rr[f[k]] == k
      ensures CountBelow(b, b[f[k]], |b|) <= k < High(b, b[f[k]])
    {
      Onto(rr, k);
      var i :| 0 <= i < |rr| && rr[i] == k;
      assert f[RevRow(b, i)] == i;
      RevRowRange(b, i);
    }
    forall j, k | 0 <= j < k < |f| ensures f[j] != f[k] {
      assert rr[f[j]] == j && rr[f[k]] == k;
    }
  }

  /** Bit k is set exactly at the start of a bucket below c. */
  ghost predicate StartsBucket(b: Block, c: nat, k: nat) {
    exists x: nat :: x < c && CountBelow(b, x, |b|) == k
  }

  lemma RadixBoundary(b: Block, f: seq<nat>, bits: seq<bool>, k: nat)
    requires b != [] && Permutation(f) && InBuckets(b, f) && 0 < k < |b| && k < |bits|
    requires bits[k] <==> StartsBucket(b, 256, k)
    ensures Boundary(b, f, bits, k, 1)
  {
    hide CountBelow, High;
    var c: nat, d: nat := b[f[k - 1]], b[f[k]];
    assert CountBelow(b, d, |b|) <= k < High(b, d);
    assert CountBelow(b, c, |b|) <= k - 1 < High(b, c);
    KeyOne(b, f[k - 1]);
    KeyOne(b, f[k]);
    DivUnique(f[k - 1], |b|, 0, f[k - 1]);
    DivUnique(f[k], |b|, 0, f[k]);
    if d < c {
      BucketsApart(b, d, c);
    } else if c < d {
      BucketsApart(b, c, d);
      assert CountBelow(b, d, |b|) == k;
    } else {
      forall x: nat | x < 256 ensures CountBelow(b, x, |b|) != k {
        if x <= c {
          CountBelowMono(b, x, c, |b|);
        } else {
          BucketsApart(b, c, x);
        }
      }
    }
  }

  lemma RadixRefines(b: Block, f: seq<nat>, bits: seq<bool>)
    requires b != [] && Permutation(f) && InBuckets(b, f) && |bits| == |b| + 64
    requires forall k :: 0 <= k < |b| ==> (bits[k] <==> StartsBucket(b, 256, k))
    requires bits[|b|] && !bits[|b| + 1]
    ensures Refining(b, f, bits, 1, 0)
  {
    hide CountBelow, Key, Permutation;
    CountBelowZero(b, |b|);
    assert StartsBucket(b, 256, 0) by { assert CountBelow(b, 0, |b|) == 0; }
    forall k | 0 < k < |b| ensures RowOk(b, f, bits, 1, 0, k) {
      RadixBoundary(b, f, bits, k);
    }
  }

  /** Count the bytes, keep a copy, and turn the counts into bucket ends. */
  method CountBytes(b: Block, nblock: nat, ftab: array<int>, ftabCopy: array<int>)
    requires ftab != ftabCopy && ftab.Length == 257 && ftabCopy.Length == 256 && nblock == |b|
    modifies ftab, ftabCopy
    ensures forall c :: 0 <= c < 256 ==> ftabCopy[c] == |Positions(b, c, |b|)|
    ensures forall c :: 0 <= c < 256 ==> ftab[c] == CountBelow(b, c + 1, |b|)
  {
    hide CountBelow;
    for i := 0 to 257
      invariant forall c :: 0 <= c < i ==> ftab[c] == 0
    {
      ftab[i] := 0;
    }
    for i := 0 to nblock
      invariant forall c :: 0 <= c < 256 ==> ftab[c] == |Positions(b, c, i)|
    {
      ftab[b[i]] := ftab[b[i]] + 1;
    }
    for i := 0 to 256
      invariant forall c :: 0 <= c < i ==> ftabCopy[c] == |Positions(b, c, |b|)|
      invariant forall c :: 0 <= c < 256 ==> ftab[c] == |Positions(b, c, |b|)|
    {
      ftabCopy[i] := ftab[i];
    }
    CountBelowZero(b, |b|);
    OrderCounts(b, 1, |b|);
    for i := 1 to 257
      invariant forall c :: 0 <= c < 256 ==> ftabCopy[c] == |Positions(b, c, |b|)|
      invariant forall c :: 0 <= c < i && c < 256 ==> ftab[c] == CountBelow(b, c + 1, |b|)
      invariant forall c :: i <= c < 256 ==> ftab[c] == |Positions(b, c, |b|)|
    {
      OrderCounts(b, i + 1, |b|);
      ftab[i] := ftab[i] + ftab[i - 1];
    }
  }

  /** Distribute the rotations over the buckets of their first bytes. */
  method Distribute(b: Block, nblock: nat, ftab: array<int>, fmap: array<nat>)
    requires ftab.Length == 257 && fmap.Length == nblock == |b| && fmap as object != ftab
    requires forall c :: 0 <= c < 256 ==> ftab[c] == CountBelow(b, c + 1, |b|)
    modifies ftab, fmap
    ensures Permutation(fmap[..]) && InBuckets(b, fmap[..])
    ensures forall c :: 0 <= c < 256 ==> ftab[c] == CountBelow(b, c, |b|)
    ensures Constant(b) ==> Reversal(fmap[..])
  {
    hide CountBelow;
    for i := 0 to nblock
      invariant forall c :: 0 <= c < 256 ==> ftab[c] == CountBelow(b, c + 1, |b|) - |Positions(b, c, i)|
      invariant forall q :: 0 <= q < i ==> 0 <= RevRow(b, q) < nblock && fmap[RevRow(b, q)] == q
    {
      RevRowRange(b, i);
      forall q | 0 <= q < i ensures RevRow(b, q) != RevRow(b, i) {
        RevRowInjective(b, q, i);
      }
      var j := b[i];
      var k := ftab[j] - 1;
      ftab[j] := k;
      fmap[k] := i;
    }
    RadixResult(b, fmap[..]);
    if Constant(b) { ConstantRadix(b, fmap[..]); }
    forall c | 0 <= c < 256 ensures ftab[c] == CountBelow(b, c, |b|) {
      OrderCounts(b, c + 1, |b|);
    }
  }

  /** The rotations from last to first. */
  ghost predicate Reversal(f: seq<nat>) {
    forall k :: 0 <= k < |f| ==> f[k] == |f| - 1 - k
  }

  /** Handing out rows from the top reverses a block of one byte. */
  lemma ConstantRadix(b: Block, f: seq<nat>)
    requires Constant(b) && |f| == |b|
    requires forall q :: 0 <= q < |b| ==> 0 <= RevRow(b, q) < |b| && f[RevRow(b, q)] == q
    ensures Reversal(f)
  {
    hide CountBelow, Positions;
    forall k | 0 <= k < |b| ensures f[k] == |b| - 1 - k {
      var q := |b| - 1 - k;
      ConstantCounts(b, b[0], b[q], |b|);
      ConstantCounts(b, b[0], b[q], q);
      HighIsNext(b, b[q]);
      assert RevRow(b, q) == k;
    }
  }

  /** Mark the bucket starts and set the sentinels behind the block. */
  method MarkStarts(b: Block, nblock: nat, ftab: array<int>, bhtab: array<bv32>) returns (ghost bits: seq<bool>)
    requires ftab.Length == 257 && nblock == |b| > 0 && nblock + 64 <= 32 * bhtab.Length
    requires bhtab as object != ftab && forall c :: 0 <= c < 256 ==> ftab[c] == CountBelow(b, c, |b|)
    modifies bhtab
    ensures |bits| == nblock + 64 && Shows(bhtab[..], bits) && bits[nblock] && !bits[nblock + 1]
    ensures forall k :: 0 <= k < nblock ==> (bits[k] <==> StartsBucket(b, 256, k))
  {
    hide CountBelow, StartsBucket;
    var nBhtab := 2 + nblock / 32;
    for i := 0 to nBhtab
      invariant forall w :: 0 <= w < i ==> bhtab[w] == 0
    {
      bhtab[i] := 0;
    }
    bits := Reading(bhtab[..], nblock + 64);
    ZeroWords(bhtab[..], nblock);
    NoStarts(b, nblock);
    for i := 0 to 256
      invariant |bits| == nblock + 64 && Shows(bhtab[..], bits)
      invariant forall k :: 0 <= k < nblock ==> (bits[k] <==> StartsBucket(b, i, k))
    {
      MoreStarts(b, i, nblock);
      SetBH(bhtab, ftab[i], bits);
      bits := bits[ftab[i] := true];
    }
    for i := 0 to 32
      invariant |bits| == nblock + 64 && Shows(bhtab[..], bits)
      invariant forall k :: 0 <= k < nblock ==> (bits[k] <==> StartsBucket(b, 256, k))
      invariant i > 0 ==> bits[nblock] && !bits[nblock + 1]
    {
      SetBH(bhtab, nblock + 2 * i, bits);
      bits := bits[nblock + 2 * i := true];
      ClearBH(bhtab, nblock + 2 * i + 1, bits);
      bits := bits[nblock + 2 * i + 1 := false];
    }
  }

  ghost function Reading(bh: seq<bv32>, n: nat): (bits: seq<bool>)
    requires n <= 32 * |bh|
    ensures |bits| == n && Shows(bh, bits)
  {
    seq(n, k requires 0 <= k < n => IsSet(bh, k))
  }

  lemma ZeroWords(bh: seq<bv32>, n: nat)
    requires n + 64 <= 32 * |bh| && forall w :: 0 <= w < 2 + n / 32 ==> bh[w] == 0
    ensures forall k :: 0 <= k < n ==> k / 32 < |bh| && !IsSet(bh, k)
  {
    forall k | 0 <= k < n ensures !IsSet(bh, k) {
      WordBits(bh, k / 32 * 32, k);
    }
  }

  lemma MoreStarts(b: Block, c: nat, n: nat)
    ensures forall k: nat :: k < n ==>
      (StartsBucket(b, c + 1, k) <==> StartsBucket(b, c, k) || CountBelow(b, c, |b|) == k)
  {
    forall k: nat | k < n
      ensures StartsBucket(b, c + 1, k) <==> StartsBucket(b, c, k) || CountBelow(b, c, |b|) == k
    {
      if StartsBucket(b, c + 1, k) {
        var x: nat :| x < c + 1 && CountBelow(b, x, |b|) == k;
        assert x < c || x == c;
      }
    }
  }

  lemma NoStarts(b: Block, n: nat)
    ensures forall k: nat :: k < n ==> !StartsBucket(b, 0, k)
  {
  }

  // ---------- One pass ----------

  /** Word k of eclass lies over bytes 4 * k to 4 * k + 3 of the block, as far as
      the block goes: writing it leaves them with any contents. */
  method Overlay(eclass8: array<Byte>, k: nat)
    modifies eclass8
  {
    for y := 4 * k to 4 * k + 4 {
      if y < eclass8.Length { eclass8[y] := *; }
    }
  }

  /** Number the buckets: the words written here overlie the block's bytes. */
  method ComputeClasses(fmap: array<nat>, eclass: array<nat>, eclass8: array<Byte>, bhtab: array<bv32>,
                        nblock: nat, h: nat, ghost b: Block, ghost bits: seq<bool>)
    requires fmap != eclass && eclass as object != eclass8 && fmap as object != eclass8
    requires bhtab as object !in {eclass, eclass8, fmap as object}
    requires nblock == |b| == fmap.Length == eclass8.Length <= eclass.Length && 1 <= h <= nblock
    requires Refining(b, fmap[..], bits, h, 0) && Shows(bhtab[..], bits)
    modifies eclass, eclass8
    ensures Classes(eclass[..], b, h)
  {
    hide Refining, HeadOf, Shows, IsSet, Key;
    ghost var f := fmap[..];
    RefiningFrame(b, f, bits, h, 0);
    var j := 0;
    for i := 0 to nblock
      invariant fmap[..] == f && Written(eclass[..], f, bits, h, i)
      invariant i > 0 ==> j == HeadOf(bits, i - 1)
    {
      HeadAt(bhtab[..], bits, i);
      WriteOne(eclass[..], f, bits, h, i);
      if IsSet(bhtab[..], i) { j := i; }
      var k: int := fmap[i] - h;
      if k < 0 { k := k + nblock; }
      eclass[k] := j;
      Overlay(eclass8, k);
    }
    AllWritten(eclass[..], b, f, bits, h);
  }

  lemma RefiningFrame(b: Block, f: seq<nat>, bits: seq<bool>, h: nat, m: nat)
    requires Refining(b, f, bits, h, m)
    ensures Framed(b, f, bits)
  {
  }

  lemma HeadAt(bh: seq<bv32>, bits: seq<bool>, i: nat)
    requires Shows(bh, bits) && i < |bits| && bits[0]
    ensures i / 32 < |bh| && IsSet(bh, i) == bits[i]
    ensures HeadOf(bits, i) == if bits[i] then i else HeadOf(bits, i - 1)
  {
  }

  /** Scan a sorted bucket and mark where the class changes. */
  method MarkBucket(fmap: array<nat>, eclass: array<nat>, bhtab: array<bv32>, l: nat, r: nat, ghost bits: seq<bool>)
    requires bhtab as object !in {eclass, fmap as object}
    requires l < r < fmap.Length <= |bits| && QS.InBounds(fmap[..], eclass[..])
    requires Shows(bhtab[..], bits) && bits[l]
    modifies bhtab
    ensures Shows(bhtab[..], Marked(bits, fmap[..], eclass[..], l, r))
  {
    hide Shows, Marked;
    var cc: int := -1;
    ghost var now, g, e := bits, fmap[..], eclass[..];
    MarkedStart(bits, g, e, l);
    for i := l to r + 1
      invariant |now| == |bits| && Shows(bhtab[..], now) && fmap[..] == g && eclass[..] == e
      invariant cc == if i == l then -1 else e[g[i - 1]]
      invariant now == Marked(bits, g, e, l, if i == l then l else i - 1)
    {
      var cc1 := eclass[fmap[i]];
      assert fmap[i] == g[i] && cc1 == e[g[i]];
      if i > l { MarkedStep(bits, g, e, l, i); }
      if cc != cc1 {
        SetBH(bhtab, i, now);
        now := now[i := true];
        cc := cc1;
      }
    }
  }

  lemma MarkedStart(bits: seq<bool>, g: seq<nat>, e: seq<nat>, l: nat)
    requires l < |g| <= |bits| && forall p :: 0 <= p < |g| ==> g[p] < |e|
    ensures Marked(bits, g, e, l, l) == bits
  {
  }

  lemma MarkedStep(bits: seq<bool>, g: seq<nat>, e: seq<nat>, l: nat, i: nat)
    requires l < i < |g| <= |bits| && forall p :: 0 <= p < |g| ==> g[p] < |e|
    ensures var before, after := Marked(bits, g, e, l, i - 1), Marked(bits, g, e, l, i);
            if e[g[i - 1]] != e[g[i]] then after == before[i := true] else after == before
  {
  }

  /** Sort and mark every bucket of more than one row. */
  method RefinePass(fmap: array<nat>, eclass: array<nat>, bhtab: array<bv32>, nblock: nat,
                    h: nat, ghost b: Block, ghost bits0: seq<bool>)
    returns (nNotDone: nat, ghost bits: seq<bool>)
    requires fmap != eclass && nblock == |b| == fmap.Length <= eclass.Length && nblock <= 900000
    requires bhtab as object !in {eclass, fmap as object}
    requires Refining(b, fmap[..], bits0, h, 0) && Shows(bhtab[..], bits0) && Classes(eclass[..], b, h)
    modifies fmap, bhtab
    ensures Refining(b, fmap[..], bits, h, nblock) && Shows(bhtab[..], bits)
    ensures nNotDone == 0 ==> forall k :: 0 <= k < nblock ==> bits[k]
    ensures Constant(b) ==> fmap[..] == old(fmap[..])
  {
    hide Refining, Classes, Shows, QS.Rearranged, QS.SortedRange, QS.OneClass, Marked, Permutation, Constant;
    nNotDone, bits := 0, bits0;
    var r := -1;
    RefiningFrame(b, fmap[..], bits, h, 0);
    while true
      invariant -1 <= r < nblock && |bits| == nblock + 64 && bits[r + 1]
      invariant Refining(b, fmap[..], bits, h, r + 1) && Shows(bhtab[..], bits)
      invariant nNotDone == 0 ==> forall k :: 0 <= k <= r ==> bits[k]
      invariant Constant(b) ==> fmap[..] == old(fmap[..])
      decreases nblock - r
    {
      RefiningFrame(b, fmap[..], bits, h, r + 1);
      var k := NextClear(bhtab, r + 1, bits, nblock + 1);
      var l := k - 1;
      if l >= nblock {
        RefineSingletons(b, fmap[..], bits, h, r + 1);
        break;
      }
      ghost var m := r + 1;
      k := NextSet(bhtab, k, bits, nblock);
      r := k - 1;
      assert NextBucket(bits, m, l, r, nblock);
      if r > l {
        nNotDone := nNotDone + (r - l + 1);
        ghost var f := fmap[..];
        RowsInBounds(f, eclass[..]);
        if Constant(b) { ConstantClass(b, f, eclass[..], h, l, r); }
        QS.FallbackQSort3(fmap, eclass[..], l, r);
        RearrangedFacts(f, fmap[..], l, r);
        MarkBucket(fmap, eclass, bhtab, l, r, bits);
        RefineBucket(b, f, fmap[..], eclass[..], bits, h, m, l, r);
        bits := Marked(bits, fmap[..], eclass[..], l, r);
      }
    }
  }

  /** All rotations of a block of one byte are in one class. */
  lemma ConstantClass(b: Block, f: seq<nat>, e: seq<nat>, h: nat, l: nat, r: nat)
    requires Constant(b) && Classes(e, b, h) && Permutation(f) && |f| == |b| && l <= r < |f| && QS.InBounds(f, e)
    ensures QS.OneClass(f, e, l, r)
  {
    forall p, q | l <= p <= r && l <= q <= r ensures QS.Cls(f, e, p) == QS.Cls(f, e, q) {
      ConstantKeys(b, f[p] + h, f[q] + h, h);
    }
  }

  lemma RowsInBounds(f: seq<nat>, e: seq<nat>)
    requires Permutation(f) && |f| <= |e|
    ensures QS.InBounds(f, e)
  {
  }

  lemma RearrangedFacts(f: seq<nat>, g: seq<nat>, lo: int, hi: int)
    requires QS.Rearranged(f, g, lo, hi)
    ensures |f| == |g|
  {
  }

  // ---------- Reconstructing the block ----------

  /** In any sort of the rotations, row i lies in the bucket of its byte. */
  lemma SortedInBuckets(b: Block, f: seq<nat>)
    requires SortsRotations(b, f)
    ensures InBuckets(b, f)
  {
    hide Key, CountBelow, StableOrder, Positions, High;
    var g := StableOrder(b, 256);
    OrderIsFull(b, 256);
    StableOrderFacts(b, 256);
    forall x, y | 0 <= x < y < |g| ensures g[x] != g[y] && Key(b, g[x], 1) <= Key(b, g[y], 1) {
      StableOrderDistinct(b, 256, x, y);
      FirstKey(b, g[x]);
      FirstKey(b, g[y]);
    }
    forall j, k | 0 <= j < k < |f| ensures Key(b, f[j], 1) <= Key(b, f[k], 1) {
      KeyPrefix(b, f[j], f[k], 1, |b|);
    }
    forall k | 0 <= k < |b|
      ensures CountBelow(b, b[f[k]], |b|) <= k < High(b, b[f[k]])
    {
      SortedListsAgree(b, f, g, 1, k);
      FirstKey(b, f[k]);
      FirstKey(b, g[k]);
      PositionFindsRow(b, 256, k);
      HighIsNext(b, b[g[k]]);
      PositionsGrow(b, b[g[k]], g[k], |b|);
      RowIs(b, g[k]);
    }
  }

  lemma FirstKey(b: Block, i: nat)
    requires i < |b|
    ensures Key(b, i, 1) == b[i]
  {
    KeyOne(b, i);
    DivUnique(i, |b|, 0, i);
  }

  lemma RowIs(b: Block, i: nat)
    requires i < |b|
    ensures Row(b, i) == CountBelow(b, b[i], |b|) + |Positions(b, b[i], i)|
  {
  }

  /** The block comes back from the sort order and the byte counts alone. */
  method Reconstruct(fmap: array<nat>, ftabCopy: array<int>, eclass8: array<Byte>, nblock: nat, ghost b: Block)
    requires fmap as object != ftabCopy && ftabCopy as object != eclass8 && fmap as object != eclass8
    requires nblock == |b| == fmap.Length == eclass8.Length && ftabCopy.Length == 256
    requires SortsRotations(b, fmap[..])
    requires forall c :: 0 <= c < 256 ==> ftabCopy[c] == |Positions(b, c, |b|)|
    modifies ftabCopy, eclass8
    ensures eclass8[..] == b
  {
    hide Positions, CountBelow, Key, SortedTo, High;
    ghost var f := fmap[..];
    SortedInBuckets(b, f);
    CountBelowZero(b, |b|);
    HighIsNext(b, 0);
    var j := 0;
    for i := 0 to nblock
      invariant fmap[..] == f && j < 256
      invariant CountBelow(b, j, |b|) <= i && ftabCopy[j] == High(b, j) - i >= 0
      invariant forall c :: j < c < 256 ==> ftabCopy[c] == |Positions(b, c, |b|)|
      invariant forall q :: 0 <= q < i ==> eclass8[f[q]] == b[f[q]]
    {
      ghost var c := b[f[i]];
      BucketNotBefore(b, f, i, j);
      ghost var restored := eclass8[..];
      while ftabCopy[j] == 0
        invariant eclass8[..] == restored
        invariant j <= c && CountBelow(b, j, |b|) <= i && ftabCopy[j] == High(b, j) - i >= 0
        invariant forall x :: j < x < 256 ==> ftabCopy[x] == |Positions(b, x, |b|)|
        decreases 256 - j
      {
        NextBucketStarts(b, j);
        BucketNotBefore(b, f, i, j + 1);
        j := j + 1;
      }
      BucketOfRow(b, f, i, j);
      ftabCopy[j] := ftabCopy[j] - 1;
      ghost var before := eclass8[..];
      eclass8[fmap[i]] := j;
      assert eclass8[..] == before[f[i] := j] && j == b[f[i]];
      forall q | 0 <= q <= i ensures eclass8[f[q]] == b[f[q]] {
        if q < i { assert before[f[q]] == b[f[q]]; }
      }
    }
    forall x | 0 <= x < nblock ensures eclass8[x] == b[x] {
      Onto(f, x);
      var q :| 0 <= q < |f| && f[q] == x;
      assert eclass8[f[q]] == b[f[q]];
    }
  }

  lemma BucketNotBefore(b: Block, f: seq<nat>, i: nat, j: nat)
    requires InBuckets(b, f) && i < |b| && CountBelow(b, j, |b|) <= i
    ensures j <= b[f[i]]
  {
    hide CountBelow, High;
    var c: nat := b[f[i]];
    assert i < High(b, c);
    if c < j {
      BucketsApart(b, c, j);
    }
  }

  lemma NextBucketStarts(b: Block, j: nat)
    ensures High(b, j) == CountBelow(b, j + 1, |b|)
    ensures High(b, j + 1) == High(b, j) + |Positions(b, j + 1, |b|)|
  {
    HighIsNext(b, j + 1);
  }

  lemma BucketOfRow(b: Block, f: seq<nat>, i: nat, j: nat)
    requires InBuckets(b, f) && i < |b| && CountBelow(b, j, |b|) <= i < High(b, j)
    ensures b[f[i]] == j
  {
    hide CountBelow, High;
    var c: nat := b[f[i]];
    assert CountBelow(b, c, |b|) <= i < High(b, c);
    if c < j {
      BucketsApart(b, c, j);
    } else if j < c {
      BucketsApart(b, j, c);
    }
  }

  /** fallbackSort: fmap lists all rotations in order, and the block is back. */
  method Sort(fmap: array<nat>, eclass: array<nat>, eclass8: array<Byte>, bhtab: array<bv32>, nblock: nat)
    requires fmap != eclass && eclass as object != eclass8 && fmap as object != eclass8
    requires bhtab as object !in {eclass, eclass8, fmap as object}
    requires 0 < nblock == fmap.Length == eclass8.Length <= eclass.Length && nblock <= 900000
    requires nblock + 64 <= 32 * bhtab.Length
    modifies fmap, eclass, eclass8, bhtab
    ensures SortsRotations(old(eclass8[..]), fmap[..])
    ensures eclass8[..] == old(eclass8[..])
    ensures old(Constant(eclass8[..])) ==> Reversal(fmap[..])
  {
    hide Constant, Reversal, Refining, Classes, Shows, Permutation, InBuckets, StartsBucket, SortedTo, Positions, CountBelow;
    ghost var b: Block := eclass8[..];
    var ftab, ftabCopy := new int[257], new int[256];
    CountBytes(eclass8[..], nblock, ftab, ftabCopy);
    Distribute(eclass8[..], nblock, ftab, fmap);
    ghost var bits := MarkStarts(eclass8[..], nblock, ftab, bhtab);
    RadixRefines(b, fmap[..], bits);
    var h := 1;
    while true
      invariant 1 <= h <= nblock && Refining(b, fmap[..], bits, h, 0) && Shows(bhtab[..], bits)
      invariant forall c :: 0 <= c < 256 ==> ftabCopy[c] == |Positions(b, c, |b|)|
      invariant Constant(b) ==> Reversal(fmap[..])
      decreases nblock - h
    {
      ComputeClasses(fmap, eclass, eclass8, bhtab, nblock, h, b, bits);
      var nNotDone;
      nNotDone, bits := RefinePass(fmap, eclass, bhtab, nblock, h, b, bits);
      h := 2 * h;
      if h > nblock || nNotDone == 0 {
        RefinedIsSorted(b, fmap[..], bits, h / 2);
        break;
      }
      NextPass(b, fmap[..], bits, h / 2);
    }
    Reconstruct(fmap, ftabCopy, eclass8, nblock, b);
  }
}
