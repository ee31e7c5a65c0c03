/** The small buckets of mainSort (blocksort.c): rotations by their first two
    bytes, and what copying predecessors from one big bucket to others does. */
module SmallBuckets {
  import opened Arith
  import opened CountingSort
  import opened Rotations

  // ---------- Rows of a bucket ----------

  /** The first two bytes of rotation x. */
  function Pair(b: Block, x: nat): (s: nat)
    requires x < |b|
    ensures s < 65536
  {
    (b[x] as nat) * 256 + b[(x + 1) % |b|]
  }

  function Next(b: Block, x: nat): (y: nat)
    requires x < |b|
    ensures y < |b|
  {
    (x + 1) % |b|
  }

  function Pairs(b: Block): (s: seq<nat>)
    ensures |s| == |b| && forall x :: 0 <= x < |b| ==> s[x] == Pair(b, x)
  {
    seq(|b|, x requires 0 <= x < |b| => Pair(b, x))
  }

  /** The first row of bucket s. */
  function Start(b: Block, s: nat): (r: nat)
    ensures r <= |b|
  {
    CountBelow(Pairs(b), s, |b|)
  }

  lemma StartMono(b: Block, s: nat, t: nat)
    requires s <= t
    ensures Start(b, s) <= Start(b, t)
  {
    CountBelowMono(Pairs(b), s, t, |b|);
  }

  lemma StartEnds(b: Block)
    ensures Start(b, 0) == 0 && Start(b, 65536) == |b|
  {
    AllBelow(Pairs(b), 65536, |b|);
    CountBelowZero(Pairs(b), |b|);
  }

  /** A permutation in which every rotation lies in its bucket's rows. */
  ghost predicate Placed(b: Block, f: seq<nat>) {
    && b != [] && |f| == |b| && Permutation(f)
    && forall k {:trigger f[k]} :: 0 <= k < |f| ==> Start(b, Pair(b, f[k])) <= k < Start(b, Pair(b, f[k]) + 1)
  }

  lemma RowHolds(b: Block, f: seq<nat>, s: nat, k: nat)
    requires Placed(b, f) && Start(b, s) <= k < Start(b, s + 1)
    ensures k < |f| && f[k] < |b| && Pair(b, f[k]) == s
  {
    hide Start;
    var t := Pair(b, f[k]);
    if t < s {
      StartMono(b, t + 1, s);
    } else if s < t {
      StartMono(b, s + 1, t);
    }
  }

  lemma RowOf(b: Block, f: seq<nat>, x: nat) returns (k: nat)
    requires Placed(b, f) && x < |b|
    ensures k < |f| && f[k] == x && Start(b, Pair(b, x)) <= k < Start(b, Pair(b, x) + 1)
  {
    hide Start;
    Onto(f, x);
    k :| 0 <= k < |f| && f[k] == x;
  }

  /** Rows lo..hi are in weak order of whole rotations. */
  ghost predicate Ordered(b: Block, f: seq<nat>, lo: nat, hi: nat)
    requires b != []
  {
    hi <= |f| && forall p, q {:trigger f[p], f[q]} :: lo <= p < q < hi ==> Key(b, f[p], |b|) <= Key(b, f[q], |b|)
  }

  ghost predicate BucketSorted(b: Block, f: seq<nat>, s: nat)
    requires b != []
  {
    Ordered(b, f, Start(b, s), Start(b, s + 1))
  }

  // ---------- Two bytes decide ----------

  lemma PairIsKey(b: Block, x: nat)
    requires x < |b|
    ensures Pair(b, x) == Key(b, x, 2)
  {
    assert Key(b, x, 0) == 0;
    assert Key(b, x, 1) == Char(b, x, 0);
    ModPlus(x, 0, |b|);
    assert x % |b| == x;
  }

  lemma PairDecides(b: Block, x: nat, y: nat)
    requires x < |b| && y < |b| && |b| >= 2 && Pair(b, x) < Pair(b, y)
    ensures Key(b, x, |b|) <= Key(b, y, |b|)
  {
    hide Key, Pair;
    PairIsKey(b, x);
    PairIsKey(b, y);
    if Key(b, x, |b|) > Key(b, y, |b|) {
      KeyPrefix(b, y, x, 2, |b|);
    }
  }

  lemma RowWithin(b: Block, f: seq<nat>, lo: nat, hi: nat, k: nat)
    requires Placed(b, f) && Start(b, lo) <= k < Start(b, hi)
    ensures k < |f| && f[k] < |b| && lo <= Pair(b, f[k]) < hi
  {
    hide Start, Pair;
    var s := Pair(b, f[k]);
    if s < lo {
      StartMono(b, s + 1, lo);
    } else if hi <= s {
      StartMono(b, hi, s);
    }
  }

  lemma RowsAscend(b: Block, f: seq<nat>, p: nat, q: nat)
    requires Placed(b, f) && p < q < |f|
    ensures f[p] < |b| && f[q] < |b| && Pair(b, f[p]) <= Pair(b, f[q])
  {
    hide Start, Pair;
    var s, t := Pair(b, f[p]), Pair(b, f[q]);
    if t < s {
      StartMono(b, t + 1, s);
    }
  }

  /** Sorted buckets side by side are sorted throughout. */
  lemma BucketsTogether(b: Block, f: seq<nat>, lo: nat, hi: nat)
    requires Placed(b, f) && |b| >= 2 && lo <= hi && forall s :: lo <= s < hi ==> BucketSorted(b, f, s)
    ensures Ordered(b, f, Start(b, lo), Start(b, hi))
  {
    hide Key, Start, Pair;
    forall p, q {:trigger f[p], f[q]} | Start(b, lo) <= p < q < Start(b, hi) ensures Key(b, f[p], |b|) <= Key(b, f[q], |b|) {
      RowWithin(b, f, lo, hi, p);
      RowsAscend(b, f, p, q);
      if Pair(b, f[p]) == Pair(b, f[q]) {
        assert BucketSorted(b, f, Pair(b, f[p]));
      } else {
        PairDecides(b, f[p], f[q]);
      }
    }
  }

  // ---------- Sides ----------

  /** Within d bytes, rotation x leaves the run of byte c it may start with,
      for a smaller byte (up) or a larger one. */
  predicate Leaves(b: Block, c: Byte, up: bool, x: nat, d: nat)
    requires x < |b|
    decreases d
  {
    && d > 0
    && ((if up then b[x] < c else b[x] > c) || (b[x] == c && Leaves(b, c, up, Next(b, x), d - 1)))
  }

  ghost predicate Side(b: Block, c: Byte, up: bool, x: nat)
    requires x < |b|
  {
    exists d: nat :: Leaves(b, c, up, x, d)
  }

  lemma SideBefore(b: Block, c: Byte, up: bool, x: nat)
    requires x < |b| && b[x] == c && Side(b, c, up, Next(b, x))
    ensures Side(b, c, up, x)
  {
    var d: nat :| Leaves(b, c, up, Next(b, x), d);
    assert Leaves(b, c, up, x, d + 1);
  }

  lemma SideNow(b: Block, c: Byte, up: bool, x: nat)
    requires x < |b| && if up then b[x] < c else b[x] > c
    ensures Side(b, c, up, x)
  {
    assert Leaves(b, c, up, x, 1);
  }

  lemma {:induction false} OneSide(b: Block, c: Byte, x: nat, d: nat, e: nat)
    requires x < |b| && Leaves(b, c, true, x, d)
    ensures !Leaves(b, c, false, x, e)
    decreases d
  {
    if b[x] == c && d > 0 && e > 0 {
      OneSide(b, c, Next(b, x), d - 1, e - 1);
    }
  }

  /** Rotations are compared by their first bytes, then by what follows. */
  lemma NextDecides(b: Block, x: nat, y: nat, m: nat)
    requires x < |b| && y < |b|
    ensures Key(b, x, m + 1) <= Key(b, y, m + 1) <==>
      b[x] < b[y] || (b[x] == b[y] && Key(b, Next(b, x), m) <= Key(b, Next(b, y), m))
  {
    hide Key;
    KeySplit(b, y, x, 1, m);
    FirstByte(b, x);
    FirstByte(b, y);
    KeyMod(b, x + 1, m);
    KeyMod(b, y + 1, m);
  }

  lemma FirstByte(b: Block, x: nat)
    requires x < |b|
    ensures Key(b, x, 1) == b[x]
  {
    KeyOne(b, x);
    SmallMod(x, |b|);
  }

  lemma SmallMod(x: nat, n: nat)
    requires x < n
    ensures x % n == x
  {
  }

  lemma {:induction false} SidesOrdered(b: Block, c: Byte, x: nat, d: nat, y: nat, e: nat, m: nat)
    requires x < |b| && y < |b| && Leaves(b, c, true, x, d) && Leaves(b, c, false, y, e)
    ensures Key(b, x, m) <= Key(b, y, m)
    decreases m
  {
    hide Key;
    if m == 0 {
      KeyZero(b, x, y);
    } else {
      NextDecides(b, x, y, m - 1);
      if b[x] == c == b[y] {
        SidesOrdered(b, c, Next(b, x), d - 1, Next(b, y), e - 1, m - 1);
      }
    }
  }

  lemma KeyZero(b: Block, x: nat, y: nat)
    requires b != []
    ensures Key(b, x, 0) == Key(b, y, 0)
  {
  }

  lemma UpBelowDown(b: Block, c: Byte, x: nat, y: nat)
    requires x < |b| && y < |b| && Side(b, c, true, x) && Side(b, c, false, y)
    ensures x != y && Key(b, x, |b|) <= Key(b, y, |b|)
  {
    hide Key;
    var d: nat :| Leaves(b, c, true, x, d);
    var e: nat :| Leaves(b, c, false, y, e);
    SidesOrdered(b, c, x, d, y, e, |b|);
    OneSide(b, c, x, d, e);
  }

  /** A rotation on neither side never leaves its run: the block is all c. */
  lemma NeitherSide(b: Block, c: Byte, x: nat)
    requires x < |b| && !Side(b, c, true, x) && !Side(b, c, false, x)
    ensures b[x] == c && !Side(b, c, true, Next(b, x)) && !Side(b, c, false, Next(b, x))
  {
    hide Side;
    if b[x] != c { SideNow(b, c, b[x] < c, x); }
    if Side(b, c, true, Next(b, x)) { SideBefore(b, c, true, x); }
    if Side(b, c, false, Next(b, x)) { SideBefore(b, c, false, x); }
  }

  lemma {:induction false} NoSide(b: Block, c: Byte, x: nat, k: nat)
    requires x < |b| && !Side(b, c, true, x) && !Side(b, c, false, x)
    ensures b[(x + k) % |b|] == c
    decreases k
  {
    hide Side;
    NeitherSide(b, c, x);
    SmallMod(x, |b|);
    if k > 0 {
      NoSide(b, c, Next(b, x), k - 1);
      ModPlus(x + 1, k - 1, |b|);
    }
  }

  lemma AllOneByte(b: Block, c: Byte, x: nat, z: nat)
    requires x < |b| && z < |b| && !Side(b, c, true, x) && !Side(b, c, false, x)
    ensures b[z] == c
  {
    hide Side;
    var k := if z >= x then z - x else z + |b| - x;
    NoSide(b, c, x, k);
    if z < x { WrapAround(z, |b|); }
    SmallMod(z, |b|);
  }
}
