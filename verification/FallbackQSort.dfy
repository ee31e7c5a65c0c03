/** fallbackSimpleSort and fallbackQSort3 (blocksort.c): sort a range of fmap
    by eclass, in place, with an explicit stack that cannot overflow. */
module FallbackQSort {
  import opened Arith

  const SMALL_THRESH := 10
  const STACK_SIZE := 100

  function Cls(f: seq<nat>, e: seq<nat>, p: int): nat
    requires 0 <= p < |f| && f[p] < |e|
  {
    e[f[p]]
  }

  ghost predicate InBounds(f: seq<nat>, e: seq<nat>) {
    forall p :: 0 <= p < |f| ==> f[p] < |e|
  }

  /** lo..hi is a range of f, possibly empty. */
  ghost predicate Range(f: seq<nat>, lo: int, hi: int) {
    0 <= lo <= hi + 1 <= |f|
  }

  ghost predicate SortedRange(f: seq<nat>, e: seq<nat>, lo: int, hi: int)
    requires Range(f, lo, hi) && InBounds(f, e)
  {
    forall p, q :: lo <= p < q <= hi ==> Cls(f, e, p) <= Cls(f, e, q)
  }

  /** All entries of lo..hi have the same class. */
  ghost predicate OneClass(f: seq<nat>, e: seq<nat>, lo: int, hi: int)
    requires Range(f, lo, hi) && InBounds(f, e)
  {
    forall p, q :: lo <= p <= hi && lo <= q <= hi ==> Cls(f, e, p) == Cls(f, e, q)
  }

  lemma OneClassPart(f: seq<nat>, e: seq<nat>, lo: int, hi: int, a: int, b: int)
    requires Range(f, lo, hi) && InBounds(f, e) && OneClass(f, e, lo, hi) && lo <= a <= b + 1 && b <= hi
    ensures OneClass(f, e, a, b)
  {
  }

  /** g rearranges f inside lo..hi and equals it elsewhere. */
  ghost predicate Rearranged(f: seq<nat>, g: seq<nat>, lo: int, hi: int) {
    && |f| == |g| && Range(f, lo, hi)
    && (forall p :: 0 <= p < |f| && !(lo <= p <= hi) ==> g[p] == f[p])
    && multiset(f[lo..hi + 1]) == multiset(g[lo..hi + 1])
  }

  lemma RearrangedTrans(f: seq<nat>, g: seq<nat>, h: seq<nat>, lo: int, hi: int)
    requires Rearranged(f, g, lo, hi) && Rearranged(g, h, lo, hi)
    ensures Rearranged(f, h, lo, hi)
  {
  }

  lemma RearrangedWider(f: seq<nat>, g: seq<nat>, lo: int, hi: int, a: int, b: int)
    requires Rearranged(f, g, lo, hi) && Range(f, a, b) && a <= lo && hi <= b
    ensures Rearranged(f, g, a, b)
  {
    assert f[a..b + 1] == f[a..lo] + f[lo..hi + 1] + f[hi + 1..b + 1];
    assert g[a..b + 1] == g[a..lo] + g[lo..hi + 1] + g[hi + 1..b + 1];
    assert f[a..lo] == g[a..lo] && f[hi + 1..b + 1] == g[hi + 1..b + 1];
  }

  lemma SwapRearranges(f: seq<nat>, e: seq<nat>, i: int, j: int, lo: int, hi: int)
    requires Range(f, lo, hi) && lo <= i <= hi && lo <= j <= hi && InBounds(f, e)
    ensures Rearranged(f, Swap(f, i, j), lo, hi) && InBounds(Swap(f, i, j), e)
  {
    var s: seq<nat> := f[lo..hi + 1];
    var k: seq<nat> := Swap(f, i, j);
    assert k[lo..hi + 1] == s[i - lo := f[j]][j - lo := f[i]];
  }

  /** Every entry of the new range was somewhere in the old one. */
  lemma RearrangedFrom(f: seq<nat>, g: seq<nat>, lo: int, hi: int, p: int) returns (q: int)
    requires Rearranged(f, g, lo, hi) && lo <= p <= hi
    ensures lo <= q <= hi && f[q] == g[p]
  {
    var s, t: seq<nat> := f[lo..hi + 1], g[lo..hi + 1];
    assert t[p - lo] == g[p] && g[p] in multiset(t);
    assert g[p] in multiset(s);
    var k :| 0 <= k < |s| && s[k] == g[p];
    q := lo + k;
  }

  lemma RearrangedInBounds(f: seq<nat>, g: seq<nat>, e: seq<nat>, lo: int, hi: int)
    requires Rearranged(f, g, lo, hi) && InBounds(f, e)
    ensures InBounds(g, e)
  {
    forall p | 0 <= p < |g| ensures g[p] < |e| {
      if lo <= p <= hi {
        var q := RearrangedFrom(f, g, lo, hi, p);
      }
    }
  }

  // ---------- fallbackSimpleSort ----------

  /** Insertion in progress: i..hi is sorted if the entry at `at` is left out,
      and everything from i up to `at` is smaller than that entry. */
  ghost predicate Inserting(h: seq<nat>, e: seq<nat>, i: int, at: int, hi: int)
    requires Range(h, i, hi) && InBounds(h, e)
  {
    && i <= at <= hi
    && (forall p, q :: i <= p < q <= hi && p != at && q != at ==> Cls(h, e, p) <= Cls(h, e, q))
    && (forall p :: i <= p < at ==> Cls(h, e, p) < Cls(h, e, at))
  }

  lemma InsertStep(h: seq<nat>, e: seq<nat>, i: int, at: int, hi: int)
    requires Range(h, i, hi) && InBounds(h, e) && Inserting(h, e, i, at, hi) && at < hi
    requires Cls(h, e, at) > Cls(h, e, at + 1)
    ensures Rearranged(h, Swap(h, at, at + 1), i, hi) && InBounds(Swap(h, at, at + 1), e)
    ensures Inserting(Swap(h, at, at + 1), e, i, at + 1, hi)
  {
    SwapRearranges(h, e, at, at + 1, i, hi);
    var k := Swap(h, at, at + 1);
    forall p, q | i <= p < q <= hi && p != at + 1 && q != at + 1 ensures Cls(k, e, p) <= Cls(k, e, q) {
      assert Cls(k, e, p) == Cls(h, e, if p == at then at + 1 else p);
      assert Cls(k, e, q) == Cls(h, e, if q == at then at + 1 else q);
    }
    forall p | i <= p < at + 1 ensures Cls(k, e, p) < Cls(k, e, at + 1) {
      assert Cls(k, e, at + 1) == Cls(h, e, at);
      assert Cls(k, e, p) == Cls(h, e, if p == at then at + 1 else p);
    }
  }

  lemma InsertDone(h: seq<nat>, e: seq<nat>, i: int, at: int, hi: int)
    requires Range(h, i, hi) && InBounds(h, e) && Inserting(h, e, i, at, hi)
    requires at < hi ==> Cls(h, e, at) <= Cls(h, e, at + 1)
    ensures SortedRange(h, e, i, hi)
  {
    forall p, q | i <= p < q <= hi ensures Cls(h, e, p) <= Cls(h, e, q) {
      if p == at {
        assert q > at + 1 ==> Cls(h, e, at + 1) <= Cls(h, e, q);
      }
    }
  }

  /** What the moving loop keeps; only stride one is known to sort. */
  ghost predicate Moving(f: seq<nat>, h: seq<nat>, e: seq<nat>, lo: int, hi: int, i: int, gap: int, at: int) {
    && Rearranged(f, h, lo, hi) && InBounds(h, e) && lo <= i <= at <= hi
    && (gap == 1 ==> Inserting(h, e, i, at, hi))
  }

  lemma MoveStep(f: seq<nat>, h: seq<nat>, e: seq<nat>, lo: int, hi: int, i: int, gap: int, at: int)
    requires Moving(f, h, e, lo, hi, i, gap, at) && 1 <= gap && at + gap <= hi
    requires Cls(h, e, at) > Cls(h, e, at + gap)
    ensures Moving(f, Swap(h, at, at + gap), e, lo, hi, i, gap, at + gap)
  {
    hide Inserting;
    SwapRearranges(h, e, at, at + gap, lo, hi);
    RearrangedTrans(f, h, Swap(h, at, at + gap), lo, hi);
    if gap == 1 { InsertStep(h, e, i, at, hi); }
  }

  lemma MoveDone(f: seq<nat>, h: seq<nat>, e: seq<nat>, lo: int, hi: int, i: int, gap: int, at: int)
    requires Moving(f, h, e, lo, hi, i, gap, at) && 1 <= gap
    requires at + gap <= hi ==> Cls(h, e, at) <= Cls(h, e, at + gap)
    ensures Rearranged(f, h, lo, hi) && InBounds(h, e) && (gap == 1 ==> SortedRange(h, e, i, hi))
  {
    if gap == 1 { InsertDone(h, e, i, at, hi); }
  }

  /** One insertion with stride `gap` from position i. */
  method Insert(fmap: array<nat>, eclass: seq<nat>, lo: int, hi: int, i: int, gap: int)
    requires Range(fmap[..], lo, hi) && InBounds(fmap[..], eclass)
    requires 1 <= gap && lo <= i && i + gap <= hi
    requires gap == 1 ==> SortedRange(fmap[..], eclass, i + 1, hi)
    modifies fmap
    ensures Rearranged(old(fmap[..]), fmap[..], lo, hi) && InBounds(fmap[..], eclass)
    ensures gap == 1 ==> SortedRange(fmap[..], eclass, i, hi)
    ensures old(Cls(fmap[..], eclass, i) <= Cls(fmap[..], eclass, i + gap)) ==> fmap[..] == old(fmap[..])
  {
    hide Rearranged, Inserting, SortedRange;
    var tmp := fmap[i];
    var ec_tmp := eclass[tmp];
    var j := i + gap;
    ghost var h, f := fmap[..], fmap[..];
    MoveStart(f, eclass, lo, hi, i, gap);
    while j <= hi && ec_tmp > eclass[fmap[j]]
      invariant i <= j - gap <= hi < |h| && h == fmap[..][j - gap := tmp]
      invariant forall p :: 0 <= p < fmap.Length ==> fmap[p] < |eclass|
      invariant Moving(f, h, eclass, lo, hi, i, gap, j - gap)
      invariant Cls(f, eclass, i) <= Cls(f, eclass, i + gap) ==> h == f && j == i + gap && fmap[..] == f
    {
      MoveStep(f, h, eclass, lo, hi, i, gap, j - gap);
      h := Swap(h, j - gap, j);
      fmap[j - gap] := fmap[j];
      j := j + gap;
    }
    MoveDone(f, h, eclass, lo, hi, i, gap, j - gap);
    fmap[j - gap] := tmp;
    assert fmap[..] == h;
  }

  lemma MoveStart(f: seq<nat>, e: seq<nat>, lo: int, hi: int, i: int, gap: int)
    requires Range(f, lo, hi) && InBounds(f, e) && lo <= i && 1 <= gap && i + gap <= hi
    requires gap == 1 ==> SortedRange(f, e, i + 1, hi)
    ensures Moving(f, f, e, lo, hi, i, gap, i)
  {
    if gap == 1 { InsertStart(f, e, i, hi); }
  }

  lemma RearrangedSelf(f: seq<nat>, lo: int, hi: int)
    requires Range(f, lo, hi)
    ensures Rearranged(f, f, lo, hi)
  {
  }

  lemma InsertStart(h: seq<nat>, e: seq<nat>, i: int, hi: int)
    requires Range(h, i, hi) && InBounds(h, e) && i < hi && SortedRange(h, e, i + 1, hi)
    ensures Inserting(h, e, i, i, hi)
  {
  }

  lemma OneClassPair(f: seq<nat>, e: seq<nat>, lo: int, hi: int, p: int, q: int)
    requires Range(f, lo, hi) && InBounds(f, e) && lo <= p <= hi && lo <= q <= hi
    ensures OneClass(f, e, lo, hi) ==> Cls(f, e, p) == Cls(f, e, q)
  {
  }

  method FallbackSimpleSort(fmap: array<nat>, eclass: seq<nat>, lo: int, hi: int)
    requires Range(fmap[..], lo, hi) && InBounds(fmap[..], eclass)
    modifies fmap
    ensures Rearranged(old(fmap[..]), fmap[..], lo, hi) && InBounds(fmap[..], eclass)
    ensures SortedRange(fmap[..], eclass, lo, hi)
    ensures old(OneClass(fmap[..], eclass, lo, hi)) ==> fmap[..] == old(fmap[..])
  {
    hide Rearranged, OneClass, Cls;
    ghost var f := fmap[..];
    RearrangedSelf(f, lo, hi);
    if lo == hi { return; }
    if hi - lo > 3 {
      var i := hi - 4;
      while i >= lo
        invariant lo - 1 <= i <= hi - 4 && InBounds(fmap[..], eclass)
        invariant Rearranged(f, fmap[..], lo, hi) && (OneClass(f, eclass, lo, hi) ==> fmap[..] == f)
      {
        ghost var g := fmap[..];
        OneClassPair(g, eclass, lo, hi, i, i + 4);
        Insert(fmap, eclass, lo, hi, i, 4);
        RearrangedTrans(f, g, fmap[..], lo, hi);
        i := i - 1;
      }
    }
    var i := hi - 1;
    while i >= lo
      invariant lo - 2 <= i <= hi && Range(fmap[..], lo, hi) && InBounds(fmap[..], eclass)
      invariant lo <= i + 1 <= hi ==> SortedRange(fmap[..], eclass, i + 1, hi)
      invariant Rearranged(f, fmap[..], lo, hi) && (lo < hi ==> lo - 1 <= i < hi)
      invariant OneClass(f, eclass, lo, hi) ==> fmap[..] == f
    {
      ghost var g := fmap[..];
      OneClassPair(g, eclass, lo, hi, i, i + 1);
      Insert(fmap, eclass, lo, hi, i, 1);
      RearrangedTrans(f, g, fmap[..], lo, hi);
      i := i - 1;
    }
  }

  // ---------- fallbackQSort3: partitioning ----------

  /** Three-way partition in progress: equal entries wait at both ends. */
  ghost predicate Parted(f: seq<nat>, e: seq<nat>, med: nat, lo: int, hi: int,
                         ltLo: int, unLo: int, unHi: int, gtHi: int)
  {
    && Range(f, lo, hi) && InBounds(f, e)
    && lo <= ltLo <= unLo <= unHi + 1 && unHi <= gtHi <= hi
    && (forall p :: lo <= p < ltLo ==> Cls(f, e, p) == med)
    && (forall p :: ltLo <= p < unLo ==> Cls(f, e, p) < med)
    && (forall p :: unHi < p <= gtHi ==> Cls(f, e, p) > med)
    && (forall p :: gtHi < p <= hi ==> Cls(f, e, p) == med)
  }

  /** Partition finished: smaller, equal, larger, in this order. */
  ghost predicate Split(f: seq<nat>, e: seq<nat>, med: nat, lo: int, n: int, m: int, hi: int) {
    && Range(f, lo, hi) && InBounds(f, e) && lo <= n + 1 <= m <= hi + 1
    && (forall p :: lo <= p <= n ==> Cls(f, e, p) < med)
    && (forall p :: n < p < m ==> Cls(f, e, p) == med)
    && (forall p :: m <= p <= hi ==> Cls(f, e, p) > med)
  }

  method SwapEntries(fmap: array<nat>, i: int, j: int, ghost eclass: seq<nat>, ghost lo: int, ghost hi: int,
                     ghost f: seq<nat>)
    requires Range(fmap[..], lo, hi) && lo <= i <= hi && lo <= j <= hi && InBounds(fmap[..], eclass)
    requires Rearranged(f, fmap[..], lo, hi)
    modifies fmap
    ensures fmap[..] == Swap(old(fmap[..]), i, j)
    ensures Rearranged(f, fmap[..], lo, hi) && InBounds(fmap[..], eclass)
  {
    hide Rearranged;
    ghost var g := fmap[..];
    SwapRearranges(g, eclass, i, j, lo, hi);
    var tmp := fmap[i];
    fmap[i] := fmap[j];
    fmap[j] := tmp;
    assert fmap[..] == Swap(g, i, j);
    RearrangedTrans(f, g, fmap[..], lo, hi);
  }

  lemma EqualUp(f: seq<nat>, e: seq<nat>, med: nat, lo: int, hi: int, ltLo: int, unLo: int, unHi: int, gtHi: int)
    requires Parted(f, e, med, lo, hi, ltLo, unLo, unHi, gtHi) && unLo <= unHi && Cls(f, e, unLo) == med
    ensures Parted(Swap(f, unLo, ltLo), e, med, lo, hi, ltLo + 1, unLo + 1, unHi, gtHi)
  {
    var k := Swap(f, unLo, ltLo);
    assert InBounds(k, e);
    forall p | lo <= p <= hi ensures Cls(k, e, p) == Cls(f, e, if p == unLo then ltLo else if p == ltLo then unLo else p) {
    }
  }

  lemma EqualDown(f: seq<nat>, e: seq<nat>, med: nat, lo: int, hi: int, ltLo: int, unLo: int, unHi: int, gtHi: int)
    requires Parted(f, e, med, lo, hi, ltLo, unLo, unHi, gtHi) && unLo <= unHi && Cls(f, e, unHi) == med
    ensures Parted(Swap(f, unHi, gtHi), e, med, lo, hi, ltLo, unLo, unHi - 1, gtHi - 1)
    ensures unLo <= unHi - 1 ==> Cls(Swap(f, unHi, gtHi), e, unLo) == Cls(f, e, unLo)
  {
    var k := Swap(f, unHi, gtHi);
    assert InBounds(k, e);
    forall p | lo <= p <= hi ensures Cls(k, e, p) == Cls(f, e, if p == unHi then gtHi else if p == gtHi then unHi else p) {
    }
  }

  /** The left scan: equals go to the far left, stop at a larger entry. */
  method ScanUp(fmap: array<nat>, eclass: seq<nat>, med: nat, lo: int, hi: int,
                ltLo0: int, unLo0: int, unHi: int, gtHi: int, ghost f: seq<nat>)
    returns (ltLo: int, unLo: int)
    requires Parted(fmap[..], eclass, med, lo, hi, ltLo0, unLo0, unHi, gtHi)
    requires Rearranged(f, fmap[..], lo, hi)
    modifies fmap
    ensures unLo0 <= unLo && Parted(fmap[..], eclass, med, lo, hi, ltLo, unLo, unHi, gtHi)
    ensures Rearranged(f, fmap[..], lo, hi)
    ensures unLo <= unHi ==> Cls(fmap[..], eclass, unLo) > med
    ensures old(OneClass(fmap[..], eclass, lo, hi)) && ltLo0 == unLo0 && MedianIn(old(fmap[..]), eclass, lo, hi, med) ==>
      fmap[..] == old(fmap[..]) && unLo > unHi
  {
    hide Rearranged, OneClass, MedianIn;
    ghost var was := fmap[..];
    ltLo, unLo := ltLo0, unLo0;
    while true
      invariant unLo0 <= unLo && Parted(fmap[..], eclass, med, lo, hi, ltLo, unLo, unHi, gtHi)
      invariant Rearranged(f, fmap[..], lo, hi)
      invariant OneClass(was, eclass, lo, hi) && ltLo0 == unLo0 && MedianIn(was, eclass, lo, hi, med) ==>
        fmap[..] == was && ltLo == unLo
      decreases unHi - unLo
    {
      if unLo > unHi { break; }
      OneClassMedian(was, eclass, lo, hi, med, unLo);
      var n := eclass[fmap[unLo]] - med;
      if n == 0 {
        EqualUp(fmap[..], eclass, med, lo, hi, ltLo, unLo, unHi, gtHi);
        SwapEntries(fmap, unLo, ltLo, eclass, lo, hi, f);
        ltLo := ltLo + 1;
        unLo := unLo + 1;
        continue;
      }
      if n > 0 { break; }
      unLo := unLo + 1;
    }
  }

  ghost predicate MedianIn(f: seq<nat>, e: seq<nat>, lo: int, hi: int, med: nat)
    requires Range(f, lo, hi) && InBounds(f, e)
  {
    exists p :: lo <= p <= hi && Cls(f, e, p) == med
  }

  lemma OneClassMedian(f: seq<nat>, e: seq<nat>, lo: int, hi: int, med: nat, q: int)
    requires Range(f, lo, hi) && InBounds(f, e) && lo <= q <= hi
    ensures OneClass(f, e, lo, hi) && MedianIn(f, e, lo, hi, med) ==> Cls(f, e, q) == med
  {
  }

  lemma MedianAt(f: seq<nat>, e: seq<nat>, lo: int, hi: int, p: int)
    requires Range(f, lo, hi) && InBounds(f, e) && lo <= p <= hi
    ensures MedianIn(f, e, lo, hi, Cls(f, e, p))
  {
  }

  /** The right scan: equals go to the far right, stop at a smaller entry. */
  method ScanDown(fmap: array<nat>, eclass: seq<nat>, med: nat, lo: int, hi: int,
                  ltLo: int, unLo: int, unHi0: int, gtHi0: int, ghost f: seq<nat>)
    returns (unHi: int, gtHi: int)
    requires Parted(fmap[..], eclass, med, lo, hi, ltLo, unLo, unHi0, gtHi0)
    requires Rearranged(f, fmap[..], lo, hi)
    requires unLo <= unHi0 ==> Cls(fmap[..], eclass, unLo) > med
    modifies fmap
    ensures unHi <= unHi0 && Parted(fmap[..], eclass, med, lo, hi, ltLo, unLo, unHi, gtHi)
    ensures Rearranged(f, fmap[..], lo, hi)
    ensures unLo <= unHi ==> unLo < unHi && Cls(fmap[..], eclass, unLo) > med && Cls(fmap[..], eclass, unHi) < med
    ensures unLo > unHi0 ==> fmap[..] == old(fmap[..])
  {
    hide Rearranged;
    ghost var was := fmap[..];
    unHi, gtHi := unHi0, gtHi0;
    while true
      invariant unHi <= unHi0 && Parted(fmap[..], eclass, med, lo, hi, ltLo, unLo, unHi, gtHi)
      invariant Rearranged(f, fmap[..], lo, hi)
      invariant unLo <= unHi ==> Cls(fmap[..], eclass, unLo) > med
      invariant unLo > unHi0 ==> fmap[..] == was
      decreases unHi - unLo
    {
      if unLo > unHi { break; }
      var n := eclass[fmap[unHi]] - med;
      if n == 0 {
        EqualDown(fmap[..], eclass, med, lo, hi, ltLo, unLo, unHi, gtHi);
        SwapEntries(fmap, unHi, gtHi, eclass, lo, hi, f);
        gtHi := gtHi - 1;
        unHi := unHi - 1;
        continue;
      }
      if n < 0 { break; }
      unHi := unHi - 1;
    }
  }

  /** Two stretches fvswap may exchange: none, or disjoint ones inside lo..hi. */
  ghost predicate Stretches(g: seq<nat>, a: int, b: int, n: int, lo: int, hi: int) {
    Range(g, lo, hi) && 0 <= n && (n > 0 ==> lo <= a && a + n <= b && b + n - 1 <= hi)
  }

  ghost function Exchanged(g: seq<nat>, a: int, b: int, n: int, lo: int, hi: int): (r: seq<nat>)
    requires Stretches(g, a, b, n, lo, hi)
    ensures |r| == |g|
  {
    seq(|g|, p requires 0 <= p < |g| =>
      if a <= p < a + n then g[p + (b - a)] else if b <= p < b + n then g[p - (b - a)] else g[p])
  }

  lemma ExchangeStep(g: seq<nat>, a: int, b: int, n: int, k: int, lo: int, hi: int)
    requires Stretches(g, a, b, n, lo, hi) && 0 <= k < n
    ensures Exchanged(g, a, b, k + 1, lo, hi) == Swap(Exchanged(g, a, b, k, lo, hi), a + k, b + k)
  {
  }

  /** fvswap: exchange two disjoint stretches of n entries. */
  method VSwap(fmap: array<nat>, zzp1: int, zzp2: int, zzn: int,
               ghost eclass: seq<nat>, ghost lo: int, ghost hi: int, ghost f: seq<nat>)
    requires Stretches(fmap[..], zzp1, zzp2, zzn, lo, hi)
    requires InBounds(fmap[..], eclass) && Rearranged(f, fmap[..], lo, hi)
    modifies fmap
    ensures Rearranged(f, fmap[..], lo, hi) && InBounds(fmap[..], eclass)
    ensures fmap[..] == Exchanged(old(fmap[..]), zzp1, zzp2, zzn, lo, hi)
  {
    hide Rearranged;
    ghost var g := fmap[..];
    var yyp1, yyp2, yyn := zzp1, zzp2, zzn;
    assert fmap[..] == Exchanged(g, zzp1, zzp2, 0, lo, hi);
    while yyn > 0
      invariant 0 <= yyn <= zzn && yyp1 == zzp1 + (zzn - yyn) && yyp2 == zzp2 + (zzn - yyn)
      invariant Rearranged(f, fmap[..], lo, hi) && InBounds(fmap[..], eclass) && |g| == fmap.Length
      invariant fmap[..] == Exchanged(g, zzp1, zzp2, zzn - yyn, lo, hi)
    {
      ExchangeStep(g, zzp1, zzp2, zzn, zzn - yyn, lo, hi);
      SwapEntries(fmap, yyp1, yyp2, eclass, lo, hi, f);
      yyp1 := yyp1 + 1;
      yyp2 := yyp2 + 1;
      yyn := yyn - 1;
    }
  }

  function Min(a: int, b: int): int { if a < b then a else b }

  lemma ExchangedAt(f: seq<nat>, a: int, b: int, n: int, lo: int, hi: int, p: int)
    requires Stretches(f, a, b, n, lo, hi) && 0 <= p < |f|
    ensures 0 <= Partner(a, b, n, p) < |f| && Exchanged(f, a, b, n, lo, hi)[p] == f[Partner(a, b, n, p)]
  {
  }

  lemma ExchangedLow(f: seq<nat>, e: seq<nat>, med: nat, lo: int, lt: int, un: int, hi: int)
    requires Range(f, lo, hi) && InBounds(f, e) && lo <= lt <= un <= hi + 1
    requires forall p :: lo <= p < lt ==> Cls(f, e, p) == med
    requires forall p :: lt <= p < un ==> Cls(f, e, p) < med
    ensures var n := Min(lt - lo, un - lt);
            && Stretches(f, lo, un - n, n, lo, hi)
            && var g := Exchanged(f, lo, un - n, n, lo, hi);
            && InBounds(g, e)
            && (forall p :: lo <= p < lo + un - lt ==> Cls(g, e, p) < med)
            && (forall p :: lo + un - lt <= p < un ==> Cls(g, e, p) == med)
            && (forall p :: 0 <= p < |f| && !(lo <= p < un) ==> g[p] == f[p])
  {
    hide Exchanged;
    var n := Min(lt - lo, un - lt);
    var g := Exchanged(f, lo, un - n, n, lo, hi);
    forall p | 0 <= p < |g| ensures 0 <= Partner(lo, un - n, n, p) < |f| && g[p] == f[Partner(lo, un - n, n, p)] {
      ExchangedAt(f, lo, un - n, n, lo, hi, p);
    }
    forall p | lo <= p < un ensures Cls(g, e, p) == Cls(f, e, Partner(lo, un - n, n, p)) {
    }
  }

  lemma ExchangedHigh(f: seq<nat>, e: seq<nat>, med: nat, lo: int, un: int, gt: int, hi: int)
    requires Range(f, lo, hi) && InBounds(f, e) && lo <= un <= gt + 1 <= hi + 1
    requires forall p :: un <= p <= gt ==> Cls(f, e, p) > med
    requires forall p :: gt < p <= hi ==> Cls(f, e, p) == med
    ensures var m := Min(hi - gt, gt - un + 1);
            && Stretches(f, un, hi - m + 1, m, lo, hi)
            && var g := Exchanged(f, un, hi - m + 1, m, lo, hi);
            && InBounds(g, e)
            && (forall p :: un <= p < un + hi - gt ==> Cls(g, e, p) == med)
            && (forall p :: un + hi - gt <= p <= hi ==> Cls(g, e, p) > med)
            && (forall p :: 0 <= p < |f| && !(un <= p <= hi) ==> g[p] == f[p])
  {
    hide Exchanged;
    var m := Min(hi - gt, gt - un + 1);
    var g := Exchanged(f, un, hi - m + 1, m, lo, hi);
    forall p | 0 <= p < |g| ensures 0 <= Partner(un, hi - m + 1, m, p) < |f| && g[p] == f[Partner(un, hi - m + 1, m, p)] {
      ExchangedAt(f, un, hi - m + 1, m, lo, hi, p);
    }
    forall p | un <= p <= hi ensures Cls(g, e, p) == Cls(f, e, Partner(un, hi - m + 1, m, p)) {
    }
  }

  ghost function Partner(a: int, b: int, n: int, p: int): int {
    if a <= p < a + n then p + (b - a) else if b <= p < b + n then p - (b - a) else p
  }

  /** The two fvswaps bring the equal entries into the middle. */
  lemma BothExchanged(f: seq<nat>, e: seq<nat>, med: nat, lo: int, hi: int, ltLo: int, unLo: int, unHi: int, gtHi: int)
    requires Parted(f, e, med, lo, hi, ltLo, unLo, unHi, gtHi) && unHi == unLo - 1
    ensures var n, m := Min(ltLo - lo, unLo - ltLo), Min(hi - gtHi, gtHi - unHi);
            && Stretches(f, lo, unLo - n, n, lo, hi)
            && var g := Exchanged(f, lo, unLo - n, n, lo, hi);
            && Stretches(g, unLo, hi - m + 1, m, lo, hi)
            && var h := Exchanged(g, unLo, hi - m + 1, m, lo, hi);
            Split(h, e, med, lo, lo + unLo - ltLo - 1, hi - (gtHi - unHi) + 1, hi)
  {
    hide Exchanged, Stretches;
    var n, m := Min(ltLo - lo, unLo - ltLo), Min(hi - gtHi, gtHi - unHi);
    ExchangedLow(f, e, med, lo, ltLo, unLo, hi);
    var g := Exchanged(f, lo, unLo - n, n, lo, hi);
    forall p | unLo <= p <= hi ensures Cls(g, e, p) == Cls(f, e, p) {
    }
    ExchangedHigh(g, e, med, lo, unLo, gtHi, hi);
    var h := Exchanged(g, unLo, hi - m + 1, m, lo, hi);
    forall p | lo <= p < unLo ensures Cls(h, e, p) == Cls(g, e, p) {
    }
  }

  method ScanBoth(fmap: array<nat>, eclass: seq<nat>, lo: int, hi: int, med: nat)
    returns (ltLo: int, unLo: int, unHi: int, gtHi: int)
    requires Range(fmap[..], lo, hi) && InBounds(fmap[..], eclass) && lo <= hi
    modifies fmap
    ensures Rearranged(old(fmap[..]), fmap[..], lo, hi) && unLo > unHi
    ensures Parted(fmap[..], eclass, med, lo, hi, ltLo, unLo, unHi, gtHi)
    ensures old(OneClass(fmap[..], eclass, lo, hi) && MedianIn(fmap[..], eclass, lo, hi, med)) ==> fmap[..] == old(fmap[..])
  {
    hide Rearranged, OneClass, MedianIn;
    ghost var f := fmap[..];
    RearrangedSelf(f, lo, hi);
    unLo, ltLo, unHi, gtHi := lo, lo, hi, hi;
    while true
      invariant Parted(fmap[..], eclass, med, lo, hi, ltLo, unLo, unHi, gtHi)
      invariant Rearranged(f, fmap[..], lo, hi)
      invariant OneClass(f, eclass, lo, hi) && MedianIn(f, eclass, lo, hi, med) ==> fmap[..] == f && ltLo == unLo
      decreases unHi - unLo
    {
      ltLo, unLo := ScanUp(fmap, eclass, med, lo, hi, ltLo, unLo, unHi, gtHi, f);
      unHi, gtHi := ScanDown(fmap, eclass, med, lo, hi, ltLo, unLo, unHi, gtHi, f);
      if unLo > unHi { break; }
      ghost var g := fmap[..];
      SwapEntries(fmap, unLo, unHi, eclass, lo, hi, f);
      CrossSwap(g, eclass, med, lo, hi, ltLo, unLo, unHi, gtHi);
      unLo := unLo + 1;
      unHi := unHi - 1;
    }
  }

  lemma AllEqualParted(f: seq<nat>, e: seq<nat>, med: nat, lo: int, hi: int, ltLo: int, unLo: int, unHi: int, gtHi: int)
    requires Parted(f, e, med, lo, hi, ltLo, unLo, unHi, gtHi) && unLo > unHi && lo <= hi
    requires OneClass(f, e, lo, hi) && MedianIn(f, e, lo, hi, med)
    ensures gtHi < ltLo
  {
    hide OneClass, MedianIn;
    OneClassMedian(f, e, lo, hi, med, if ltLo < unLo then ltLo else lo);
    OneClassMedian(f, e, lo, hi, med, if unHi < gtHi then gtHi else lo);
  }

  /** One partitioning pass. Either all entries are equal, or the range is
      split into smaller, equal and larger ones, with at least one equal. */
  method Partition(fmap: array<nat>, eclass: seq<nat>, lo: int, hi: int, med: nat)
    returns (done: bool, n: int, m: int)
    requires Range(fmap[..], lo, hi) && InBounds(fmap[..], eclass) && lo <= hi
    requires MedianIn(fmap[..], eclass, lo, hi, med)
    modifies fmap
    ensures Rearranged(old(fmap[..]), fmap[..], lo, hi) && InBounds(fmap[..], eclass)
    ensures done ==> forall p :: lo <= p <= hi ==> Cls(fmap[..], eclass, p) == med
    ensures !done ==> Split(fmap[..], eclass, med, lo, n, m, hi) && n + 1 < m
    ensures old(OneClass(fmap[..], eclass, lo, hi)) ==> done && fmap[..] == old(fmap[..])
  {
    hide Rearranged, Exchanged, Stretches, OneClass, MedianIn;
    ghost var f := fmap[..];
    n, m := lo, hi;
    var ltLo, unLo, unHi, gtHi := ScanBoth(fmap, eclass, lo, hi, med);
    if gtHi < ltLo {
      done := true;
      return;
    }
    done := false;
    if OneClass(f, eclass, lo, hi) {
      AllEqualParted(f, eclass, med, lo, hi, ltLo, unLo, unHi, gtHi);
    }
    BothExchanged(fmap[..], eclass, med, lo, hi, ltLo, unLo, unHi, gtHi);
    n := Min(ltLo - lo, unLo - ltLo);
    VSwap(fmap, lo, unLo - n, n, eclass, lo, hi, f);
    m := Min(hi - gtHi, gtHi - unHi);
    VSwap(fmap, unLo, hi - m + 1, m, eclass, lo, hi, f);
    n := lo + unLo - ltLo - 1;
    m := hi - (gtHi - unHi) + 1;
    MedianStays(f, fmap[..], eclass, med, lo, n, m, hi);
  }

  lemma CrossSwap(f: seq<nat>, e: seq<nat>, med: nat, lo: int, hi: int, ltLo: int, unLo: int, unHi: int, gtHi: int)
    requires Parted(f, e, med, lo, hi, ltLo, unLo, unHi, gtHi) && unLo < unHi
    requires Cls(f, e, unLo) > med && Cls(f, e, unHi) < med
    ensures Parted(Swap(f, unLo, unHi), e, med, lo, hi, ltLo, unLo + 1, unHi - 1, gtHi)
  {
    var k := Swap(f, unLo, unHi);
    assert InBounds(k, e);
    forall p | lo <= p <= hi ensures Cls(k, e, p) == Cls(f, e, if p == unLo then unHi else if p == unHi then unLo else p) {
    }
  }

  lemma MedianStays(f: seq<nat>, g: seq<nat>, e: seq<nat>, med: nat, lo: int, n: int, m: int, hi: int)
    requires Rearranged(f, g, lo, hi) && InBounds(f, e) && Split(g, e, med, lo, n, m, hi)
    requires MedianIn(f, e, lo, hi, med)
    ensures n + 1 < m
  {
    var p :| lo <= p <= hi && Cls(f, e, p) == med;
    RearrangedSym(f, g, lo, hi);
    var q := RearrangedFrom(g, f, lo, hi, p);
    assert Cls(g, e, q) == med;
  }

  lemma RearrangedSym(f: seq<nat>, g: seq<nat>, lo: int, hi: int)
    requires Rearranged(f, g, lo, hi)
    ensures Rearranged(g, f, lo, hi)
  {
  }

  // ---------- fallbackQSort3: the explicit stack ----------

  type Span = (int, int)

  function Size(s: Span): int { s.1 - s.0 + 1 }

  ghost predicate SpansFit(st: seq<Span>, lo: int, hi: int) {
    && (forall k :: 0 <= k < |st| ==> lo <= st[k].0 <= st[k].1 + 1 && st[k].1 <= hi)
    && (forall j, k :: 0 <= j < k < |st| ==> st[j].1 < st[k].0 || st[k].1 < st[j].0)
  }

  ghost predicate Together(st: seq<Span>, p: int, q: int) {
    exists k :: 0 <= k < |st| && st[k].0 <= p && q <= st[k].1
  }

  /** Any two entries are in order already or lie in one pending span. */
  ghost predicate OrderedAcross(f: seq<nat>, e: seq<nat>, st: seq<Span>, lo: int, hi: int)
    requires Range(f, lo, hi) && InBounds(f, e)
  {
    forall p, q :: lo <= p < q <= hi ==> Cls(f, e, p) <= Cls(f, e, q) || Together(st, p, q)
  }

  /** Entry k of the stack is at most the 2^k-th part of the whole range, and
      only a span of more than ten entries ever has another one above it. */
  ghost predicate StackHalves(st: seq<Span>, total: int) {
    && (forall k :: 0 <= k < |st| ==> Size(st[k]) * Pow2(k) <= total)
    && (|st| >= 2 ==> 11 * Pow2(|st| - 2) <= total)
  }

  ghost function Work(st: seq<Span>): int {
    if st == [] then 0 else Work(st[..|st| - 1]) + 2 * Size(st[|st| - 1]) + 1
  }

  lemma {:induction false} WorkPositive(st: seq<Span>)
    requires forall k :: 0 <= k < |st| ==> Size(st[k]) >= 0
    ensures Work(st) >= 0
  {
    if st != [] {
      WorkPositive(st[..|st| - 1]);
    }
  }

  /** For a block of up to 900000 entries the stack stays below nineteen. */
  lemma StackBound(st: seq<Span>, total: int)
    requires StackHalves(st, total) && total <= 900000
    ensures |st| < 19
  {
    Pow2Values();
    if |st| >= 2 {
      Pow2Less(|st| - 2, 17);
    }
  }

  ghost function Rest(st: seq<Span>): seq<Span>
    requires st != []
  {
    st[..|st| - 1]
  }

  /** The popped span has been sorted: nothing takes its place. */
  lemma PopSorted(f: seq<nat>, g: seq<nat>, e: seq<nat>, st: seq<Span>, lo: int, hi: int)
    requires st != [] && SpansFit(st, lo, hi) && Range(f, lo, hi) && |g| == |f| && InBounds(f, e) && InBounds(g, e)
    requires OrderedAcross(f, e, st, lo, hi)
    requires var s := st[|st| - 1]; Rearranged(f, g, s.0, s.1) && SortedRange(g, e, s.0, s.1)
    ensures SpansFit(Rest(st), lo, hi) && OrderedAcross(g, e, Rest(st), lo, hi)
  {
    hide Rearranged;
    var s := st[|st| - 1];
    forall p, q | lo <= p < q <= hi ensures Cls(g, e, p) <= Cls(g, e, q) || Together(Rest(st), p, q) {
      if !(s.0 <= p && q <= s.1) {
        AcrossStays(f, g, e, st, lo, hi, p, q);
      }
    }
  }

  /** Rearranging inside the top span keeps every pair not inside it in order. */
  lemma AcrossStays(f: seq<nat>, g: seq<nat>, e: seq<nat>, st: seq<Span>, lo: int, hi: int, p: int, q: int)
    requires st != [] && SpansFit(st, lo, hi) && Range(f, lo, hi) && |g| == |f| && InBounds(f, e) && InBounds(g, e)
    requires OrderedAcross(f, e, st, lo, hi) && lo <= p < q <= hi
    requires var s := st[|st| - 1]; Rearranged(f, g, s.0, s.1) && !(s.0 <= p && q <= s.1)
    ensures Cls(g, e, p) <= Cls(g, e, q) || Together(Rest(st), p, q)
  {
    var s := st[|st| - 1];
    var p', q' := p, q;
    if s.0 <= p <= s.1 { p' := RearrangedFrom(f, g, s.0, s.1, p); }
    if s.0 <= q <= s.1 { q' := RearrangedFrom(f, g, s.0, s.1, q); }
    assert Cls(g, e, p) == Cls(f, e, p') && Cls(g, e, q) == Cls(f, e, q');
    assert p' < q';
    if Together(st, p', q') {
      var k :| 0 <= k < |st| && st[k].0 <= p' && q' <= st[k].1;
      assert k < |st| - 1;
      assert Rest(st)[k] == st[k];
      assert st[k].1 < s.0 || s.1 < st[k].0;
      assert p' == p && q' == q;
    }
  }

  /** The popped span has been split: its two outer parts are pending. */
  lemma PopSplit(f: seq<nat>, g: seq<nat>, e: seq<nat>, st: seq<Span>, lo: int, hi: int,
                 med: nat, n: int, m: int, first: Span, second: Span)
    requires st != [] && SpansFit(st, lo, hi) && Range(f, lo, hi) && |g| == |f| && InBounds(f, e) && InBounds(g, e)
    requires OrderedAcross(f, e, st, lo, hi)
    requires var s := st[|st| - 1];
             Rearranged(f, g, s.0, s.1) && Split(g, e, med, s.0, n, m, s.1) && n + 1 < m
             && {first, second} == {(s.0, n), (m, s.1)}
    ensures SpansFit(Rest(st) + [first, second], lo, hi)
    ensures OrderedAcross(g, e, Rest(st) + [first, second], lo, hi)
  {
    hide Rearranged, Split, Together;
    var s, st' := st[|st| - 1], Rest(st) + [first, second];
    SplitSizes(g, e, med, s.0, n, m, s.1);
    assert st'[|st| - 1] == first && st'[|st|] == second;
    var a, c := if first == (s.0, n) then |st| - 1 else |st|, if first == (s.0, n) then |st| else |st| - 1;
    assert st'[a] == (s.0, n) && st'[c] == (m, s.1);
    forall p, q | lo <= p < q <= hi ensures Cls(g, e, p) <= Cls(g, e, q) || Together(st', p, q) {
      if s.0 <= p && q <= s.1 {
        SplitPair(g, e, med, s.0, n, m, s.1, p, q);
        if q <= n { TogetherIn(st', a, p, q); }
        if m <= p { TogetherIn(st', c, p, q); }
      } else {
        AcrossStays(f, g, e, st, lo, hi, p, q);
        TogetherMore(Rest(st), [first, second], p, q);
      }
    }
  }

  lemma TogetherIn(st: seq<Span>, k: nat, p: int, q: int)
    requires k < |st| && st[k].0 <= p && q <= st[k].1
    ensures Together(st, p, q)
  {
  }

  lemma TogetherMore(st: seq<Span>, more: seq<Span>, p: int, q: int)
    ensures Together(st, p, q) ==> Together(st + more, p, q)
  {
    if Together(st, p, q) {
      var k :| 0 <= k < |st| && st[k].0 <= p && q <= st[k].1;
      assert (st + more)[k] == st[k];
    }
  }

  lemma SplitPair(g: seq<nat>, e: seq<nat>, med: nat, lo: int, n: int, m: int, hi: int, p: int, q: int)
    requires Split(g, e, med, lo, n, m, hi) && lo <= p < q <= hi
    ensures Cls(g, e, p) <= Cls(g, e, q) || q <= n || m <= p
  {
  }

  /** Larger part first, smaller on top: sizes halve and the work shrinks. */
  lemma PushHalves(st: seq<Span>, total: int, first: Span, second: Span)
    requires st != [] && StackHalves(st, total)
    requires var s := Size(st[|st| - 1]);
             s > SMALL_THRESH && 0 <= Size(second) <= Size(first) && Size(first) + Size(second) <= s
    ensures StackHalves(Rest(st) + [first, second], total)
  {
    hide Pow2;
    var s, k, st' := st[|st| - 1], |st| - 1, Rest(st) + [first, second];
    var x := Pow2(k);
    Pow2Next(k);
    MulMono(Size(first), Size(s), x);
    MulMono(2 * Size(second), Size(s), x);
    Double(Size(second), x);
    MulMono(11, Size(s), x);
    forall i | 0 <= i < |st'| ensures Size(st'[i]) * Pow2(i) <= total {
      assert i < k ==> st'[i] == st[i];
    }
  }

  lemma Pow2Next(k: nat)
    ensures Pow2(k + 1) == 2 * Pow2(k)
  {
  }

  lemma PushWork(st: seq<Span>, first: Span, second: Span)
    requires st != [] && Size(first) + Size(second) < Size(st[|st| - 1])
    ensures Work(Rest(st) + [first, second]) < Work(st)
  {
    var st' := Rest(st) + [first, second];
    assert st'[..|st'| - 1] == Rest(st) + [first];
    assert (Rest(st) + [first])[..|st| - 1] == Rest(st);
  }

  lemma PopHalves(st: seq<Span>, total: int)
    requires st != [] && StackHalves(st, total) && Size(st[|st| - 1]) >= 0
    ensures StackHalves(Rest(st), total) && Work(Rest(st)) < Work(st)
  {
    hide Pow2;
    if |st| >= 3 { Pow2Mono(|st| - 3, |st| - 2); }
    forall i | 0 <= i < |st| - 1 ensures Size(Rest(st)[i]) * Pow2(i) <= total {
      assert Rest(st)[i] == st[i];
    }
  }

  /** What the stack loop keeps. */
  ghost predicate Sorting(f0: seq<nat>, f: seq<nat>, e: seq<nat>, st: seq<Span>, lo: int, hi: int) {
    && Range(f, lo, hi) && Rearranged(f0, f, lo, hi) && InBounds(f, e) && SpansFit(st, lo, hi)
    && OrderedAcross(f, e, st, lo, hi) && StackHalves(st, hi - lo + 1)
  }

  lemma SortingTop(f0: seq<nat>, f: seq<nat>, e: seq<nat>, st: seq<Span>, lo: int, hi: int)
    requires Sorting(f0, f, e, st, lo, hi) && st != [] && hi - lo < 900000
    ensures |st| < 19 && InBounds(f, e) && Range(f, st[|st| - 1].0, st[|st| - 1].1)
    ensures lo <= st[|st| - 1].0 && st[|st| - 1].1 <= hi
  {
    StackBound(st, hi - lo + 1);
  }

  lemma SortingPop(f0: seq<nat>, f: seq<nat>, g: seq<nat>, e: seq<nat>, st: seq<Span>, lo: int, hi: int)
    requires Sorting(f0, f, e, st, lo, hi) && st != [] && |g| == |f| && InBounds(g, e)
    requires var s := st[|st| - 1];
             Range(g, s.0, s.1) && Rearranged(f, g, s.0, s.1) && SortedRange(g, e, s.0, s.1)
    ensures Sorting(f0, g, e, Rest(st), lo, hi) && Work(Rest(st)) < Work(st)
  {
    hide Rearranged, OrderedAcross, StackHalves, Work;
    var s := st[|st| - 1];
    PopSorted(f, g, e, st, lo, hi);
    RearrangedWider(f, g, s.0, s.1, lo, hi);
    RearrangedTrans(f0, f, g, lo, hi);
    PopHalves(st, hi - lo + 1);
  }

  lemma SortingSplit(f0: seq<nat>, f: seq<nat>, g: seq<nat>, e: seq<nat>, st: seq<Span>, lo: int, hi: int,
                     med: nat, n: int, m: int, first: Span, second: Span)
    requires Sorting(f0, f, e, st, lo, hi) && st != [] && Size(st[|st| - 1]) > SMALL_THRESH
    requires InBounds(g, e) && |g| == |f| && Size(second) <= Size(first)
    requires var s := st[|st| - 1];
             Rearranged(f, g, s.0, s.1) && Split(g, e, med, s.0, n, m, s.1) && n + 1 < m
             && {first, second} == {(s.0, n), (m, s.1)}
    ensures Sorting(f0, g, e, Rest(st) + [first, second], lo, hi)
    ensures Work(Rest(st) + [first, second]) < Work(st)
  {
    hide Rearranged, OrderedAcross, StackHalves, Work;
    var s := st[|st| - 1];
    SplitSizes(g, e, med, s.0, n, m, s.1);
    PopSplit(f, g, e, st, lo, hi, med, n, m, first, second);
    RearrangedWider(f, g, s.0, s.1, lo, hi);
    RearrangedTrans(f0, f, g, lo, hi);
    PushHalves(st, hi - lo + 1, first, second);
    PushWork(st, first, second);
  }

  lemma SortingStart(f: seq<nat>, e: seq<nat>, lo: int, hi: int)
    requires Range(f, lo, hi) && InBounds(f, e)
    ensures Sorting(f, f, e, [(lo, hi)], lo, hi)
  {
    var st := [(lo, hi)];
    assert st[0] == (lo, hi);
    assert Pow2(0) == 1;
  }

  lemma SortingEnd(f0: seq<nat>, f: seq<nat>, e: seq<nat>, lo: int, hi: int)
    requires Sorting(f0, f, e, [], lo, hi)
    ensures Rearranged(f0, f, lo, hi) && InBounds(f, e) && SortedRange(f, e, lo, hi)
  {
  }

  ghost predicate StackHolds(stackLo: seq<int>, stackHi: seq<int>, st: seq<Span>) {
    && |stackLo| == |stackHi| == STACK_SIZE && |st| <= STACK_SIZE
    && (forall k :: 0 <= k < |st| ==> st[k] == (stackLo[k], stackHi[k]))
  }

  /** fpush. */
  method Push(stackLo: array<int>, stackHi: array<int>, sp: nat, lo: int, hi: int, ghost st: seq<Span>)
    requires stackLo != stackHi && sp == |st| && sp < stackLo.Length && sp < stackHi.Length
    requires StackHolds(stackLo[..], stackHi[..], st)
    modifies stackLo, stackHi
    ensures StackHolds(stackLo[..], stackHi[..], st + [(lo, hi)])
  {
    stackLo[sp], stackHi[sp] := lo, hi;
  }

  /** Push both outer parts, the larger one first. */
  method PushParts(stackLo: array<int>, stackHi: array<int>, sp: nat, lo: int, n: int, m: int, hi: int, ghost st: seq<Span>)
    returns (ghost first: Span, ghost second: Span)
    requires stackLo != stackHi && sp == |st| && sp + 1 < stackLo.Length && sp + 1 < stackHi.Length
    requires StackHolds(stackLo[..], stackHi[..], st)
    modifies stackLo, stackHi
    ensures StackHolds(stackLo[..], stackHi[..], st + [first, second]) && Size(second) <= Size(first)
    ensures {first, second} == {(lo, n), (m, hi)}
  {
    hide StackHolds;
    if n - lo > hi - m {
      first, second := (lo, n), (m, hi);
      Push(stackLo, stackHi, sp, lo, n, st);
      Push(stackLo, stackHi, sp + 1, m, hi, st + [(lo, n)]);
    } else {
      first, second := (m, hi), (lo, n);
      Push(stackLo, stackHi, sp, m, hi, st);
      Push(stackLo, stackHi, sp + 1, lo, n, st + [(m, hi)]);
    }
    assert st + [first, second] == st + [first] + [second];
  }

  lemma HoldsOne(stackLo: seq<int>, stackHi: seq<int>, lo: int, hi: int)
    requires |stackLo| == |stackHi| == STACK_SIZE && stackLo[0] == lo && stackHi[0] == hi
    ensures StackHolds(stackLo, stackHi, [(lo, hi)])
  {
  }

  lemma HoldsTop(stackLo: seq<int>, stackHi: seq<int>, st: seq<Span>)
    requires StackHolds(stackLo, stackHi, st) && st != []
    ensures |stackLo| == |stackHi| == STACK_SIZE >= |st|
    ensures st[|st| - 1] == (stackLo[|st| - 1], stackHi[|st| - 1]) && StackHolds(stackLo, stackHi, Rest(st))
  {
  }

  /** One range off the stack: sorted outright, found to be of one class, or split. */
  method SortOrSplit(fmap: array<nat>, eclass: seq<nat>, lo: int, hi: int, r: nat)
    returns (r': nat, sorted: bool, ghost med: nat, n: int, m: int)
    requires Range(fmap[..], lo, hi) && InBounds(fmap[..], eclass)
    modifies fmap
    ensures Rearranged(old(fmap[..]), fmap[..], lo, hi) && InBounds(fmap[..], eclass)
    ensures sorted ==> SortedRange(fmap[..], eclass, lo, hi)
    ensures !sorted ==> hi - lo >= SMALL_THRESH && Split(fmap[..], eclass, med, lo, n, m, hi) && n + 1 < m
    ensures old(OneClass(fmap[..], eclass, lo, hi)) ==> sorted && fmap[..] == old(fmap[..])
  {
    hide Rearranged, Split, OneClass, MedianIn;
    r', sorted, med, n, m := r, true, 0, lo, hi;
    if hi - lo < SMALL_THRESH {
      FallbackSimpleSort(fmap, eclass, lo, hi);
      return;
    }
    r' := (r * 7621 + 1) % 32768;
    var r3 := r' % 3;
    var at := if r3 == 0 then lo else if r3 == 1 then (lo + hi) / 2 else hi;
    var median := eclass[fmap[at]];
    med := median;
    MedianAt(fmap[..], eclass, lo, hi, at);
    sorted, n, m := Partition(fmap, eclass, lo, hi, median);
  }

  /** fallbackQSort3: fmap[loSt..hiSt] is sorted by eclass, rearranging only
      that range; the check on sp (error 1004) never fails. */
  method FallbackQSort3(fmap: array<nat>, eclass: seq<nat>, loSt: int, hiSt: int)
    requires Range(fmap[..], loSt, hiSt) && InBounds(fmap[..], eclass) && hiSt - loSt < 900000
    modifies fmap
    ensures Rearranged(old(fmap[..]), fmap[..], loSt, hiSt) && InBounds(fmap[..], eclass)
    ensures SortedRange(fmap[..], eclass, loSt, hiSt)
    ensures old(OneClass(fmap[..], eclass, loSt, hiSt)) ==> fmap[..] == old(fmap[..])
  {
    hide Rearranged, Sorting, Work, Split, StackHolds, OneClass, MedianIn;
    var stackLo, stackHi := new int[STACK_SIZE], new int[STACK_SIZE];
    ghost var f0, st := fmap[..], [(loSt, hiSt)];
    var r := 0;
    stackLo[0] := loSt;
    stackHi[0] := hiSt;
    var sp := 1;
    HoldsOne(stackLo[..], stackHi[..], loSt, hiSt);
    SortingStart(f0, eclass, loSt, hiSt);
    while sp > 0
      invariant sp == |st| && StackHolds(stackLo[..], stackHi[..], st)
      invariant Sorting(f0, fmap[..], eclass, st, loSt, hiSt)
      invariant OneClass(f0, eclass, loSt, hiSt) ==> fmap[..] == f0
      decreases Work(st)
    {
      SortingTop(f0, fmap[..], eclass, st, loSt, hiSt);
      SortingWork(f0, fmap[..], eclass, st, loSt, hiSt);
      HoldsTop(stackLo[..], stackHi[..], st);
      assert sp < STACK_SIZE - 1;
      sp := sp - 1;
      var lo, hi := stackLo[sp], stackHi[sp];
      ghost var f := fmap[..];
      if OneClass(f0, eclass, loSt, hiSt) { OneClassPart(f0, eclass, loSt, hiSt, lo, hi); }
      var sorted, n, m;
      ghost var med;
      r, sorted, med, n, m := SortOrSplit(fmap, eclass, lo, hi, r);
      if sorted {
        SortingPop(f0, f, fmap[..], eclass, st, loSt, hiSt);
        st := Rest(st);
        continue;
      }
      SplitSizes(fmap[..], eclass, med, lo, n, m, hi);
      ghost var first, second;
      first, second := PushParts(stackLo, stackHi, sp, lo, n, m, hi, Rest(st));
      sp := sp + 2;
      SortingSplit(f0, f, fmap[..], eclass, st, loSt, hiSt, med, n, m, first, second);
      st := Rest(st) + [first, second];
    }
    assert st == [];
    SortingEnd(f0, fmap[..], eclass, loSt, hiSt);
  }

  lemma SortingWork(f0: seq<nat>, f: seq<nat>, e: seq<nat>, st: seq<Span>, lo: int, hi: int)
    requires Sorting(f0, f, e, st, lo, hi)
    ensures Work(st) >= 0
  {
    WorkPositive(st);
  }

  lemma SplitSizes(g: seq<nat>, e: seq<nat>, med: nat, lo: int, n: int, m: int, hi: int)
    requires Split(g, e, med, lo, n, m, hi)
    ensures lo <= n + 1 <= m <= hi + 1
  {
  }
}
