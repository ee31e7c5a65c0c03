/** Step 2 of mainSort's loop (blocksort.c): scanning a sorted big bucket from
    both ends lists the buckets of its predecessors in order, and with them the
    part of the big bucket that was not sorted before. */
module CopyScan {
  import opened Arith
  import opened Rotations
  import opened SmallBuckets
  import MoveToFront

  // ---------- Predecessors ----------

  ghost predicate Rots(b: Block, r: seq<nat>) {
    b != [] && forall i :: 0 <= i < |r| ==> r[i] < |b|
  }

  /** The rotations before those of r, where they start with byte t. */
  ghost function Preds(b: Block, r: seq<nat>, t: nat): (w: seq<nat>)
    requires Rots(b, r)
    ensures Rots(b, w)
    decreases |r|
  {
    if r == [] then []
    else
      var w, x := Preds(b, r[..|r| - 1], t), Pred(r[|r| - 1], |b|);
      if b[x] == t then w + [x] else w
  }

  lemma PredsSnoc(b: Block, r: seq<nat>, y: nat, t: nat)
    requires Rots(b, r + [y])
    ensures Rots(b, r) && y < |b|
    ensures Preds(b, r + [y], t) == Preds(b, r, t) + (if b[Pred(y, |b|)] == t then [Pred(y, |b|)] else [])
  {
    assert (r + [y])[..|r|] == r;
    assert (r + [y])[|r|] == y;
  }

  lemma PredIsBefore(b: Block, x: nat, y: nat)
    requires x < |b| && y < |b|
    ensures Pred(y, |b|) == x <==> Next(b, x) == y
  {
    SuccessorOfPredecessor(y, |b|);
    PredOfNext(b, x);
  }

  lemma PredOfNext(b: Block, x: nat)
    requires x < |b|
    ensures Pred(Next(b, x), |b|) == x
  {
    ModPlus(x + 1, |b| - 1, |b|);
    WrapAround(x, |b|);
    SmallMod(x, |b|);
    assert x + 1 + (|b| - 1) == x + |b|;
  }

  lemma {:induction false} PredsMembers(b: Block, r: seq<nat>, t: nat, x: nat)
    requires Rots(b, r)
    ensures x in Preds(b, r, t) <==> x < |b| && b[x] == t && Next(b, x) in r
    decreases |r|
  {
    if r != [] {
      var rest, y := r[..|r| - 1], r[|r| - 1];
      PredsMembers(b, rest, t, x);
      assert r == rest + [y];
      if x < |b| { PredIsBefore(b, x, y); }
    }
  }

  lemma {:induction false} PredsDistinct(b: Block, r: seq<nat>, t: nat)
    requires Rots(b, r) && MoveToFront.Distinct(r)
    ensures MoveToFront.Distinct(Preds(b, r, t))
    decreases |r|
  {
    if r != [] {
      var rest, y := r[..|r| - 1], r[|r| - 1];
      PredsDistinct(b, rest, t);
      PredsMembers(b, rest, t, Pred(y, |b|));
      PredIsBefore(b, Pred(y, |b|), y);
    }
  }

  // ---------- Order of reading ----------

  /** x may be read before y: ascending on the way up, descending on the way down. */
  ghost predicate InOrder(b: Block, up: bool, x: nat, y: nat)
    requires b != []
  {
    if up then Key(b, x, |b|) <= Key(b, y, |b|) else Key(b, y, |b|) <= Key(b, x, |b|)
  }

  ghost predicate Run(b: Block, up: bool, r: seq<nat>)
    requires b != []
  {
    forall i, j {:trigger r[i], r[j]} :: 0 <= i < j < |r| ==> InOrder(b, up, r[i], r[j])
  }

  lemma NextKeepsOrder(b: Block, x: nat, y: nat)
    requires x < |b| && y < |b| && b[x] == b[y] && Key(b, Next(b, x), |b|) <= Key(b, Next(b, y), |b|)
    ensures Key(b, x, |b|) <= Key(b, y, |b|)
  {
    hide Key;
    NextDecides(b, x, y, |b|);
    KeyPrefix(b, x, y, |b|, |b| + 1);
  }

  lemma PredKeepsOrder(b: Block, up: bool, x: nat, y: nat)
    requires x < |b| && y < |b| && InOrder(b, up, x, y) && b[Pred(x, |b|)] == b[Pred(y, |b|)]
    ensures InOrder(b, up, Pred(x, |b|), Pred(y, |b|))
  {
    hide Key;
    var n := |b|;
    PredIsBefore(b, Pred(x, n), x);
    PredIsBefore(b, Pred(y, n), y);
    if up { NextKeepsOrder(b, Pred(x, n), Pred(y, n)); } else { NextKeepsOrder(b, Pred(y, n), Pred(x, n)); }
  }

  lemma {:induction false} PredsRun(b: Block, up: bool, r: seq<nat>, t: nat)
    requires Rots(b, r) && Run(b, up, r)
    ensures Run(b, up, Preds(b, r, t))
    decreases |r|
  {
    hide InOrder;
    if r != [] {
      var rest, y := r[..|r| - 1], r[|r| - 1];
      PredsRun(b, up, rest, t);
      var w, x := Preds(b, rest, t), Pred(y, |b|);
      if b[x] == t {
        forall i | 0 <= i < |w| ensures InOrder(b, up, w[i], x) {
          PredsMembers(b, rest, t, w[i]);
          var z := Next(b, w[i]);
          var k :| 0 <= k < |rest| && rest[k] == z;
          assert InOrder(b, up, r[k], r[|r| - 1]);
          PredIsBefore(b, w[i], z);
          PredKeepsOrder(b, up, z, y);
        }
      }
    }
  }

  // ---------- The queue of rotations to read ----------

  /** Rotations that start with c and then leave it on the side given, each
      once, in the order of reading. */
  ghost predicate Good(b: Block, c: Byte, up: bool, r: seq<nat>) {
    && Rots(b, r) && MoveToFront.Distinct(r) && Run(b, up, r)
    && forall i {:trigger r[i]} :: 0 <= i < |r| ==> b[r[i]] == c && Side(b, c, up, r[i])
  }

  predicate Beyond(up: bool, v: Byte, c: Byte) { if up then v < c else v > c }

  /** All rotations that leave c at once, in the order of reading. */
  ghost predicate Outer(b: Block, c: Byte, up: bool, o: seq<nat>) {
    && Good(b, c, up, o)
    && (forall i {:trigger o[i]} :: 0 <= i < |o| ==> Beyond(up, b[Next(b, o[i])], c))
    && (forall x {:trigger b[x]} :: 0 <= x < |b| && b[x] == c && Beyond(up, b[Next(b, x)], c) ==> x in o)
  }

  lemma PredsGood(b: Block, c: Byte, up: bool, r: seq<nat>)
    requires Good(b, c, up, r)
    ensures Good(b, c, up, Preds(b, r, c))
  {
    hide Run, Side;
    var w := Preds(b, r, c);
    PredsDistinct(b, r, c);
    PredsRun(b, up, r, c);
    forall i | 0 <= i < |w| ensures b[w[i]] == c && Side(b, c, up, w[i]) {
      PredsMembers(b, r, c, w[i]);
      SideBefore(b, c, up, w[i]);
    }
  }

  /** What is to be read: the outer rotations, then the predecessors found. */
  lemma QueueGood(b: Block, c: Byte, up: bool, o: seq<nat>, r: seq<nat>)
    requires |b| >= 2 && Outer(b, c, up, o) && Good(b, c, up, r)
    ensures Good(b, c, up, o + Preds(b, r, c))
  {
    hide Side, Key;
    var w := Preds(b, r, c);
    PredsGood(b, c, up, r);
    forall i, j | 0 <= i < |o| && 0 <= j < |w| ensures o[i] != w[j] && InOrder(b, up, o[i], w[j]) {
      PredsMembers(b, r, c, w[j]);
      var k :| 0 <= k < |r| && r[k] == Next(b, w[j]);
      assert b[Next(b, w[j])] == c && b[w[j]] == c && b[o[i]] == c;
      if up { PairDecides(b, o[i], w[j]); } else { PairDecides(b, w[j], o[i]); }
    }
  }

  /** Reading the next one only adds to what is to be read. */
  lemma QueueGrows(b: Block, c: Byte, up: bool, o: seq<nat>, r: seq<nat>)
    requires |b| >= 2 && Outer(b, c, up, o) && Good(b, c, up, r) && r <= o + Preds(b, r, c)
    requires |r| < |o| + |Preds(b, r, c)|
    ensures var r' := r + [(o + Preds(b, r, c))[|r|]];
            Good(b, c, up, r') && r' <= o + Preds(b, r', c)
  {
    hide Side, Key, Preds;
    QueueGood(b, c, up, o, r);
    var q := o + Preds(b, r, c);
    var r' := r + [q[|r|]];
    assert r' == q[..|r| + 1];
    PredsSnoc(b, r, q[|r|], c);
  }

  /** A scan that has read all there is to read has read the whole side. */
  lemma {:induction false} WholeSide(b: Block, c: Byte, up: bool, o: seq<nat>, r: seq<nat>, x: nat, d: nat)
    requires Outer(b, c, up, o) && Good(b, c, up, r) && r == o + Preds(b, r, c)
    requires x < |b| && b[x] == c && Leaves(b, c, up, x, d)
    ensures x in r
    decreases d
  {
    hide Run, Side;
    if b[Next(b, x)] == c {
      WholeSide(b, c, up, o, r, Next(b, x), d - 1);
      PredsMembers(b, r, c, x);
    }
  }

  // ---------- Room in a bucket ----------

  function Lo(b: Block, t: nat, c: nat): (r: nat)
    ensures r <= |b|
  {
    Start(b, t * 256 + c)
  }

  function Hi(b: Block, t: nat, c: nat): (r: nat)
    ensures r <= |b|
  {
    Start(b, t * 256 + c + 1)
  }

  lemma PairParts(b: Block, x: nat, t: nat, c: nat)
    requires x < |b| && c < 256
    ensures Pair(b, x) == t * 256 + c <==> b[x] == t && b[Next(b, x)] == c
  {
  }

  /** Up and down never list the same rotation. */
  lemma BothDistinct(b: Block, c: Byte, up: bool, r: seq<nat>, other: seq<nat>, t: nat)
    requires Good(b, c, up, r) && Good(b, c, !up, other)
    ensures MoveToFront.Distinct(Preds(b, r, t) + Preds(b, other, t))
  {
    hide Side, Run, Key;
    PredsDistinct(b, r, t);
    PredsDistinct(b, other, t);
    var w, v := Preds(b, r, t), Preds(b, other, t);
    forall i, j | 0 <= i < |w| && 0 <= j < |v| ensures w[i] != v[j] {
      PredsMembers(b, r, t, w[i]);
      PredsMembers(b, other, t, v[j]);
      if w[i] == v[j] {
        var y := Next(b, w[i]);
        UpBelowDown(b, c, y, y);
      }
    }
  }

  /** The elements of a bucket's rows. */
  lemma BucketCount(b: Block, f: seq<nat>, lo: nat, hi: nat)
    requires Permutation(f) && lo <= hi <= |f|
    ensures |Elements(f[lo..hi])| == hi - lo
  {
    DistinctCount(f[lo..hi]);
  }

  lemma Room(b: Block, f: seq<nat>, c: Byte, up: bool, r: seq<nat>, other: seq<nat>, t: Byte)
    requires Placed(b, f) && Good(b, c, up, r) && Good(b, c, !up, other)
    ensures Lo(b, t, c) + |Preds(b, r, t)| + |Preds(b, other, t)| <= Hi(b, t, c)
  {
    hide Side, Run, Key, Start, Pair;
    var lo, hi, w := Lo(b, t, c), Hi(b, t, c), Preds(b, r, t) + Preds(b, other, t);
    StartMono(b, t * 256 + c, t * 256 + c + 1);
    BothDistinct(b, c, up, r, other, t);
    DistinctCount(w);
    BucketCount(b, f, lo, hi);
    forall x | x in Elements(w) ensures x in Elements(f[lo..hi]) {
      PredsMembers(b, r, t, x);
      PredsMembers(b, other, t, x);
      PairParts(b, x, t, c);
      var k := RowOf(b, f, x);
      assert f[lo..hi][k - lo] == x;
    }
    SubsetCount(Elements(w), Elements(f[lo..hi]));
  }

  /** If together they list the whole bucket, its rows are all taken. */
  lemma FoundInOne(b: Block, f: seq<nat>, c: Byte, r: seq<nat>, other: seq<nat>, t: Byte, i: nat)
    requires Placed(b, f) && Rots(b, r) && Rots(b, other) && Lo(b, t, c) <= i < Hi(b, t, c)
    requires forall x :: 0 <= x < |b| && b[x] == c ==> x in r || x in other
    ensures i < |f| && (f[i] in Preds(b, r, t) || f[i] in Preds(b, other, t))
  {
    hide Start, Pair;
    RowHolds(b, f, t * 256 + c, i);
    PairParts(b, f[i], t, c);
    PredsMembers(b, r, t, f[i]);
    PredsMembers(b, other, t, f[i]);
  }

  lemma NoRoomLeft(b: Block, f: seq<nat>, c: Byte, r: seq<nat>, other: seq<nat>, t: Byte)
    requires Placed(b, f) && Rots(b, r) && Rots(b, other)
    requires forall x :: 0 <= x < |b| && b[x] == c ==> x in r || x in other
    ensures Hi(b, t, c) <= Lo(b, t, c) + |Preds(b, r, t)| + |Preds(b, other, t)|
  {
    hide Start, Pair, Preds;
    var lo, hi, w := Lo(b, t, c), Hi(b, t, c), Preds(b, r, t) + Preds(b, other, t);
    StartMono(b, t * 256 + c, t * 256 + c + 1);
    BucketCount(b, f, lo, hi);
    forall i | 0 <= i < hi - lo ensures f[lo..hi][i] in w {
      FoundInOne(b, f, c, r, other, t, lo + i);
    }
    SubsetCount(Elements(f[lo..hi]), Elements(w));
    ElementsAtMost(w);
  }

  lemma {:induction false} ElementsAtMost(f: seq<nat>)
    ensures |Elements(f)| <= |f|
  {
    if f != [] {
      ElementsAtMost(f[..|f| - 1]);
      assert Elements(f) == Elements(f[..|f| - 1]) + {f[|f| - 1]};
    }
  }

  // ---------- The state of a scan ----------

  /** Place i of a region, counted from its low or its high end. */
  function Place(up: bool, lo: int, hi: int, i: int): int { if up then lo + i else hi - 1 - i }

  ghost predicate Filled(f: seq<nat>, up: bool, lo: nat, hi: nat, w: seq<nat>) {
    && lo + |w| <= hi <= |f|
    && forall i {:trigger w[i]} :: 0 <= i < |w| ==> f[Place(up, lo, hi, i)] == w[i]
  }

  /** Entries of buckets that the scan leaves alone. */
  predicate Kept(b: Block, c: Byte, done: seq<bool>, x: nat)
    requires x < |b| && |done| == 256
  {
    b[Next(b, x)] != c || done[b[x]]
  }

  /** Between what came from below and what came from above nothing changed. */
  ghost predicate Between(b: Block, c: Byte, up: bool, r: seq<nat>, other: seq<nat>, t: nat, k: nat)
    requires Rots(b, r) && Rots(b, other)
  {
    if up then Lo(b, t, c) + |Preds(b, r, t)| <= k < Hi(b, t, c) - |Preds(b, other, t)|
    else Lo(b, t, c) + |Preds(b, other, t)| <= k < Hi(b, t, c) - |Preds(b, r, t)|
  }

  ghost predicate Frame(b: Block, f0: seq<nat>, f: seq<nat>, c: Byte, up: bool, done: seq<bool>, r: seq<nat>, other: seq<nat>)
    requires Rots(b, f0) && |f| == |f0| && |done| == 256 && Rots(b, r) && Rots(b, other)
  {
    forall k {:trigger f[k]} :: 0 <= k < |f| && (Kept(b, c, done, f0[k]) || Between(b, c, up, r, other, b[f0[k]], k)) ==>
      f[k] == f0[k]
  }

  /** Every open bucket [t, c] has from either end the predecessors found. */
  ghost predicate Copies(b: Block, f: seq<nat>, c: Byte, up: bool, done: seq<bool>, r: seq<nat>, other: seq<nat>, copy: seq<int>)
    requires Rots(b, r) && Rots(b, other) && |done| == |copy| == 256
  {
    forall t {:trigger done[t]} :: 0 <= t < 256 && !done[t] ==>
      && copy[t] == Place(up, Lo(b, t, c), Hi(b, t, c), |Preds(b, r, t)|)
      && Filled(f, up, Lo(b, t, c), Hi(b, t, c), Preds(b, r, t))
      && Filled(f, !up, Lo(b, t, c), Hi(b, t, c), Preds(b, other, t))
  }

  /** The outer rotations lie at the end of the big bucket where the scan
      starts, right beside the small bucket [c, c]. */
  ghost predicate OuterRows(b: Block, f0: seq<nat>, c: Byte, up: bool, o: seq<nat>) {
    && Filled(f0, up, Start(b, c * 256), Start(b, c * 256 + 256), o)
    && (if up then Start(b, c * 256) + |o| == Lo(b, c, c) else Start(b, c * 256 + 256) - |o| == Hi(b, c, c))
  }

  /** Scanning big bucket c, with r read so far, and `other` read by the scan
      from the other end. */
  ghost predicate Copying(b: Block, f0: seq<nat>, f: seq<nat>, c: Byte, up: bool, done: seq<bool>, o: seq<nat>,
                          r: seq<nat>, other: seq<nat>, copy: seq<int>) {
    && |b| >= 2 && Placed(b, f0) && |f| == |b| && |done| == |copy| == 256 && !done[c]
    && Outer(b, c, up, o) && OuterRows(b, f0, c, up, o)
    && Good(b, c, up, r) && Good(b, c, !up, other) && r <= o + Preds(b, r, c)
    && Copies(b, f, c, up, done, r, other, copy) && Frame(b, f0, f, c, up, done, r, other)
  }

  lemma OuterRowKept(b: Block, f0: seq<nat>, f: seq<nat>, c: Byte, up: bool, done: seq<bool>, o: seq<nat>,
                     r: seq<nat>, other: seq<nat>, i: nat)
    requires Rots(b, f0) && Rots(b, r) && Rots(b, other) && |f| == |f0| && |done| == 256
    requires Outer(b, c, up, o) && OuterRows(b, f0, c, up, o) && Frame(b, f0, f, c, up, done, r, other) && i < |o|
    ensures var k := Place(up, Start(b, c * 256), Start(b, c * 256 + 256), i);
            0 <= k < |f| && f[k] == o[i]
  {
    hide Good, Start, Lo, Hi, Between;
    var k := Place(up, Start(b, c * 256), Start(b, c * 256 + 256), i);
    assert f0[k] == o[i];
    assert Kept(b, c, done, f0[k]);
  }

  lemma InnerRow(b: Block, f: seq<nat>, c: Byte, up: bool, o: seq<nat>, w: seq<nat>, f0: seq<nat>, i: nat)
    requires OuterRows(b, f0, c, up, o) && Filled(f, up, Lo(b, c, c), Hi(b, c, c), w) && i < |w|
    ensures var k := Place(up, Start(b, c * 256), Start(b, c * 256 + 256), |o| + i);
            0 <= k < |f| && f[k] == w[i]
  {
    hide Start, Lo, Hi;
    assert f[Place(up, Lo(b, c, c), Hi(b, c, c), i)] == w[i];
  }

  /** The row the scan looks at holds the next rotation to read. */
  lemma NextRow(b: Block, f0: seq<nat>, f: seq<nat>, c: Byte, up: bool, done: seq<bool>, o: seq<nat>,
                r: seq<nat>, other: seq<nat>, copy: seq<int>)
    requires Copying(b, f0, f, c, up, done, o, r, other, copy) && |r| < |o| + |Preds(b, r, c)|
    ensures var k := Place(up, Start(b, c * 256), Start(b, c * 256 + 256), |r|);
            0 <= k < |f| && f[k] == (o + Preds(b, r, c))[|r|] < |b|
  {
    hide Side, Run, Start, Lo, Hi, Pair, Frame, Filled, OuterRows, Outer, MoveToFront.Distinct, Placed;
    QueueBounds(b, c, up, o, r);
    PlacedRots(b, f0);
    if |r| < |o| {
      OuterRowKept(b, f0, f, c, up, done, o, r, other, |r|);
    } else {
      InnerRow(b, f, c, up, o, Preds(b, r, c), f0, |r| - |o|);
    }
  }

  lemma PlacedRots(b: Block, f: seq<nat>)
    requires Placed(b, f)
    ensures Rots(b, f) && |f| == |b|
  {
  }

  lemma QueueBounds(b: Block, c: Byte, up: bool, o: seq<nat>, r: seq<nat>)
    requires Outer(b, c, up, o) && Rots(b, r)
    ensures Rots(b, o + Preds(b, r, c))
  {
  }

  lemma FillNext(f: seq<nat>, up: bool, lo: nat, hi: nat, w: seq<nat>, v: seq<nat>, x: nat)
    requires Filled(f, up, lo, hi, w) && Filled(f, !up, lo, hi, v) && lo + |w| + 1 + |v| <= hi
    ensures var p := Place(up, lo, hi, |w|);
            lo <= p < hi && Filled(f[p := x], up, lo, hi, w + [x]) && Filled(f[p := x], !up, lo, hi, v)
  {
  }

  lemma FillElsewhere(f: seq<nat>, up: bool, lo: nat, hi: nat, w: seq<nat>, p: nat, x: nat)
    requires Filled(f, up, lo, hi, w) && p < |f| && !(lo <= p < hi)
    ensures Filled(f[p := x], up, lo, hi, w)
  {
  }

  lemma BucketsApart(b: Block, t: Byte, u: Byte, c: Byte)
    requires t != u
    ensures Hi(b, t, c) <= Lo(b, u, c) || Hi(b, u, c) <= Lo(b, t, c)
  {
    if t < u { StartMono(b, t * 256 + c + 1, u * 256 + c); } else { StartMono(b, u * 256 + c + 1, t * 256 + c); }
  }

  /** The rotation before the one read starts with byte t and goes to the next
      place of bucket [t, c]. */
  lemma CopyOne(b: Block, f0: seq<nat>, f: seq<nat>, c: Byte, up: bool, done: seq<bool>,
                r: seq<nat>, other: seq<nat>, copy: seq<int>, y: nat)
    requires Placed(b, f0) && |f| == |b| && |done| == |copy| == 256 && y < |b|
    requires Good(b, c, up, r + [y]) && Good(b, c, up, r) && Good(b, c, !up, other)
    requires Copies(b, f, c, up, done, r, other, copy)
    requires !done[b[Pred(y, |b|)]]
    ensures var x := Pred(y, |b|);
            var p := copy[b[x]];
            && Lo(b, b[x], c) <= p < Hi(b, b[x], c)
            && Copies(b, f[p := x], c, up, done, r + [y], other, copy[b[x] := if up then p + 1 else p - 1])
  {
    hide Side, Run, Start, Key, Pair, Preds, Lo, Hi;
    var x := Pred(y, |b|);
    var t := b[x];
    Room(b, f0, c, up, r + [y], other, t);
    PredsSnoc(b, r, y, t);
    FillNext(f, up, Lo(b, t, c), Hi(b, t, c), Preds(b, r, t), Preds(b, other, t), x);
    var p := copy[t];
    forall u | 0 <= u < 256 && !done[u] && u != t
      ensures Filled(f[p := x], up, Lo(b, u, c), Hi(b, u, c), Preds(b, r + [y], u))
      ensures Preds(b, r + [y], u) == Preds(b, r, u)
      ensures Filled(f[p := x], !up, Lo(b, u, c), Hi(b, u, c), Preds(b, other, u))
    {
      PredsSnoc(b, r, y, u);
      BucketsApart(b, t, u, c);
      FillElsewhere(f, up, Lo(b, u, c), Hi(b, u, c), Preds(b, r, u), p, x);
      FillElsewhere(f, !up, Lo(b, u, c), Hi(b, u, c), Preds(b, other, u), p, x);
    }
  }

  lemma MorePreds(b: Block, r: seq<nat>, y: nat, u: nat)
    requires Rots(b, r + [y])
    ensures Rots(b, r) && |Preds(b, r, u)| <= |Preds(b, r + [y], u)|
    ensures y < |b| && b[Pred(y, |b|)] != u ==> Preds(b, r + [y], u) == Preds(b, r, u)
  {
    PredsSnoc(b, r, y, u);
  }

  lemma FrameCopied(b: Block, f0: seq<nat>, f: seq<nat>, c: Byte, up: bool, done: seq<bool>,
                    r: seq<nat>, other: seq<nat>, y: nat, p: nat)
    requires Placed(b, f0) && |f| == |b| && |done| == 256 && Rots(b, r + [y]) && Rots(b, r) && Rots(b, other) && y < |b|
    requires Frame(b, f0, f, c, up, done, r, other) && !done[b[Pred(y, |b|)]]
    requires var t := b[Pred(y, |b|)];
             Lo(b, t, c) <= p < Hi(b, t, c) && p == Place(up, Lo(b, t, c), Hi(b, t, c), |Preds(b, r, t)|)
    ensures Frame(b, f0, f[p := Pred(y, |b|)], c, up, done, r + [y], other)
  {
    hide Start, Key, Pair, Preds, Place;
    var x := Pred(y, |b|);
    var t := b[x];
    RowHolds(b, f0, t * 256 + c, p);
    PairParts(b, f0[p], t, c);
    PredsSnoc(b, r, y, t);
    var g := f[p := x];
    forall k {:trigger g[k]} |
        0 <= k < |f| && (Kept(b, c, done, f0[k]) || Between(b, c, up, r + [y], other, b[f0[k]], k))
      ensures g[k] == f0[k]
    {
      MorePreds(b, r, y, b[f0[k]]);
      PlaceIs(up, Lo(b, t, c), Hi(b, t, c), |Preds(b, r, t)|);
      assert f[k] == f0[k] || k == p;
    }
  }

  lemma PlaceIs(up: bool, lo: int, hi: int, i: int)
    ensures Place(up, lo, hi, i) == if up then lo + i else hi - 1 - i
  {
  }

  lemma FrameSkipped(b: Block, f0: seq<nat>, f: seq<nat>, c: Byte, up: bool, done: seq<bool>,
                     r: seq<nat>, other: seq<nat>, y: nat)
    requires Placed(b, f0) && |f| == |b| && |done| == 256 && Rots(b, r + [y]) && Rots(b, r) && Rots(b, other) && y < |b|
    requires Frame(b, f0, f, c, up, done, r, other) && done[b[Pred(y, |b|)]]
    ensures Frame(b, f0, f, c, up, done, r + [y], other)
  {
    hide Start, Key, Pair, Preds, Place, Lo, Hi;
    forall k {:trigger f[k]} |
        0 <= k < |f| && (Kept(b, c, done, f0[k]) || Between(b, c, up, r + [y], other, b[f0[k]], k))
      ensures f[k] == f0[k]
    {
      MorePreds(b, r, y, b[f0[k]]);
    }
  }

  lemma CopiesSkipped(b: Block, f: seq<nat>, c: Byte, up: bool, done: seq<bool>,
                      r: seq<nat>, other: seq<nat>, copy: seq<int>, y: nat)
    requires |done| == |copy| == 256 && Rots(b, r + [y]) && Rots(b, r) && Rots(b, other) && y < |b|
    requires Copies(b, f, c, up, done, r, other, copy) && done[b[Pred(y, |b|)]]
    ensures Copies(b, f, c, up, done, r + [y], other, copy)
  {
    hide Preds, Filled, Lo, Hi, Place;
    forall u {:trigger done[u]} | 0 <= u < 256 && !done[u] ensures Preds(b, r + [y], u) == Preds(b, r, u) {
      MorePreds(b, r, y, u);
    }
  }

  /** One turn of either scan. */
  lemma CopyTurn(b: Block, f0: seq<nat>, f: seq<nat>, c: Byte, up: bool, done: seq<bool>, o: seq<nat>,
                 r: seq<nat>, other: seq<nat>, copy: seq<int>, y: nat)
    requires Copying(b, f0, f, c, up, done, o, r, other, copy) && |r| < |o| + |Preds(b, r, c)|
    requires y == (o + Preds(b, r, c))[|r|] && y < |b|
    ensures var x := Pred(y, |b|);
            if done[b[x]] then Copying(b, f0, f, c, up, done, o, r + [y], other, copy)
            else
              var p := copy[b[x]];
              && 0 <= p < |f|
              && Copying(b, f0, f[p := x], c, up, done, o, r + [y], other, copy[b[x] := if up then p + 1 else p - 1])
  {
    hide Side, Run, MoveToFront.Distinct, Start, Lo, Hi, Pair, Frame, Filled, OuterRows, Outer, Placed, Preds, Copies;
    PlacedRots(b, f0);
    QueueGrows(b, c, up, o, r);
    var x := Pred(y, |b|);
    if done[b[x]] {
      FrameSkipped(b, f0, f, c, up, done, r, other, y);
      CopiesSkipped(b, f, c, up, done, r, other, copy, y);
    } else {
      CopyOne(b, f0, f, c, up, done, r, other, copy, y);
      CopyPlace(b, f, c, up, done, r, other, copy, b[x]);
      FrameCopied(b, f0, f, c, up, done, r, other, y, copy[b[x]]);
    }
  }

  lemma CopyPlace(b: Block, f: seq<nat>, c: Byte, up: bool, done: seq<bool>, r: seq<nat>, other: seq<nat>, copy: seq<int>, t: Byte)
    requires Rots(b, r) && Rots(b, other) && |done| == |copy| == 256 && !done[t] && Copies(b, f, c, up, done, r, other, copy)
    ensures copy[t] == Place(up, Lo(b, t, c), Hi(b, t, c), |Preds(b, r, t)|)
  {
  }

  // ---------- Before the scans ----------

  /** n entries of rows lo..hi, from either end. */
  ghost function Ends(f: seq<nat>, up: bool, lo: nat, hi: nat, n: nat): (o: seq<nat>)
    requires lo + n <= hi <= |f|
    ensures |o| == n && forall i {:trigger o[i]} :: 0 <= i < n ==> o[i] == f[Place(up, lo, hi, i)]
  {
    seq(n, i requires 0 <= i < n => f[Place(up, lo, hi, i)])
  }

  /** The rows of big bucket c outside [c, c], from the end where the scan starts. */
  ghost function OuterList(b: Block, f: seq<nat>, c: Byte, up: bool): seq<nat>
    requires |f| == |b|
  {
    BigBucketRows(b, c);
    var lo, hi := Start(b, c * 256), Start(b, c * 256 + 256);
    Ends(f, up, lo, hi, if up then Lo(b, c, c) - lo else hi - Hi(b, c, c))
  }

  lemma OuterAt(b: Block, f: seq<nat>, c: Byte, up: bool)
    requires |f| == |b|
    ensures var o, lo, hi := OuterList(b, f, c, up), Start(b, c * 256), Start(b, c * 256 + 256);
            && |o| == (if up then Lo(b, c, c) - lo else hi - Hi(b, c, c)) && lo + |o| <= hi <= |f|
            && forall i {:trigger o[i]} :: 0 <= i < |o| ==> o[i] == f[Place(up, lo, hi, i)]
  {
    hide Start, Lo, Hi;
    BigBucketRows(b, c);
  }

  lemma BigBucketRows(b: Block, c: Byte)
    ensures Start(b, c * 256) <= Lo(b, c, c) <= Hi(b, c, c) <= Start(b, c * 256 + 256) <= |b|
  {
    StartMono(b, c * 256, c * 256 + c);
    StartMono(b, c * 256 + c, c * 256 + c + 1);
    StartMono(b, c * 256 + c + 1, c * 256 + 256);
  }

  /** Where every small bucket of c but [c, c] is sorted. */
  ghost predicate SortedAround(b: Block, f: seq<nat>, c: Byte)
    requires b != []
  {
    forall s :: c * 256 <= s < c * 256 + 256 && s != c * 256 + c ==> BucketSorted(b, f, s)
  }

  lemma OuterOrdered(b: Block, f: seq<nat>, c: Byte, up: bool)
    requires |b| >= 2 && Placed(b, f) && SortedAround(b, f, c)
    ensures var o := OuterList(b, f, c, up);
            Rots(b, o) && MoveToFront.Distinct(o) && Run(b, up, o)
  {
    hide Key, Start, Lo, Hi, Pair;
    BigBucketRows(b, c);
    OuterAt(b, f, c, up);
    var o := OuterList(b, f, c, up);
    var from, to := if up then c * 256 else c * 256 + c + 1, if up then c * 256 + c else c * 256 + 256;
    BucketsTogether(b, f, from, to);
    LoHiAre(b, c);
    assert Ordered(b, f, Start(b, from), Start(b, to));
  }

  lemma LoHiAre(b: Block, c: Byte)
    ensures Lo(b, c, c) == Start(b, c * 256 + c) && Hi(b, c, c) == Start(b, c * 256 + c + 1)
  {
  }

  lemma PairBeyond(b: Block, c: Byte, up: bool, x: nat)
    requires x < |b|
    requires if up then c * 256 <= Pair(b, x) < c * 256 + c else c * 256 + c + 1 <= Pair(b, x) < c * 256 + 256
    ensures b[x] == c && Beyond(up, b[Next(b, x)], c)
  {
  }

  lemma OuterBytes(b: Block, f: seq<nat>, c: Byte, up: bool, i: nat)
    requires Placed(b, f) && i < |OuterList(b, f, c, up)|
    ensures var x := OuterList(b, f, c, up)[i];
            x < |b| && b[x] == c && Beyond(up, b[Next(b, x)], c) && Side(b, c, up, x)
  {
    hide Key, Start, Lo, Hi, Side, Pair, Next, Permutation;
    BigBucketRows(b, c);
    OuterAt(b, f, c, up);
    LoHiAre(b, c);
    var x := OuterList(b, f, c, up)[i];
    var k := Place(up, Start(b, c * 256), Start(b, c * 256 + 256), i);
    RowWithin(b, f, if up then c * 256 else c * 256 + c + 1, if up then c * 256 + c else c * 256 + 256, k);
    PairBeyond(b, c, up, x);
    SideNow(b, c, up, Next(b, x));
    SideBefore(b, c, up, x);
  }

  lemma OuterHolds(b: Block, f: seq<nat>, c: Byte, up: bool, x: nat)
    requires Placed(b, f) && x < |b| && b[x] == c && Beyond(up, b[Next(b, x)], c)
    ensures x in OuterList(b, f, c, up)
  {
    hide Key, Start, Lo, Hi;
    BigBucketRows(b, c);
    OuterAt(b, f, c, up);
    LoHiAre(b, c);
    var k := RowOf(b, f, x);
    var s := Pair(b, x);
    if up {
      StartMono(b, c * 256, s);
      StartMono(b, s + 1, c * 256 + c);
      assert OuterList(b, f, c, up)[k - Start(b, c * 256)] == x;
    } else {
      StartMono(b, c * 256 + c + 1, s);
      StartMono(b, s + 1, c * 256 + 256);
      assert OuterList(b, f, c, up)[Start(b, c * 256 + 256) - 1 - k] == x;
    }
  }

  lemma OuterIs(b: Block, f: seq<nat>, c: Byte, up: bool)
    requires |b| >= 2 && Placed(b, f) && SortedAround(b, f, c)
    ensures Outer(b, c, up, OuterList(b, f, c, up)) && OuterRows(b, f, c, up, OuterList(b, f, c, up))
  {
    hide Key, Start, Lo, Hi, Side, Run, SortedAround;
    var o := OuterList(b, f, c, up);
    BigBucketRows(b, c);
    OuterAt(b, f, c, up);
    OuterOrdered(b, f, c, up);
    forall i {:trigger o[i]} | 0 <= i < |o|
      ensures b[o[i]] == c && Beyond(up, b[Next(b, o[i])], c) && Side(b, c, up, o[i])
    {
      OuterBytes(b, f, c, up, i);
    }
    forall x {:trigger b[x]} | 0 <= x < |b| && b[x] == c && Beyond(up, b[Next(b, x)], c) ensures x in o {
      OuterHolds(b, f, c, up, x);
    }
  }

  lemma StartUp(b: Block, f: seq<nat>, c: Byte, done: seq<bool>, copy: seq<int>)
    requires |b| >= 2 && Placed(b, f) && SortedAround(b, f, c) && |done| == |copy| == 256 && !done[c]
    requires forall t {:trigger copy[t]} :: 0 <= t < 256 ==> copy[t] == Lo(b, t, c)
    ensures Copying(b, f, f, c, true, done, OuterList(b, f, c, true), [], [], copy)
  {
    hide Key, Start, Lo, Hi, Side, OuterRows, Outer, SortedAround;
    OuterIs(b, f, c, true);
    forall t {:trigger done[t]} | 0 <= t < 256 ensures Lo(b, t, c) <= Hi(b, t, c) {
      BucketRows(b, t, c);
    }
  }

  lemma BucketRows(b: Block, t: Byte, c: Byte)
    ensures Lo(b, t, c) <= Hi(b, t, c) <= |b|
  {
    StartMono(b, t * 256 + c, t * 256 + c + 1);
  }

  lemma StartDown(b: Block, f0: seq<nat>, f: seq<nat>, c: Byte, done: seq<bool>, o: seq<nat>, r: seq<nat>,
                  copyStart: seq<int>, copyEnd: seq<int>)
    requires Copying(b, f0, f, c, true, done, o, r, [], copyStart) && SortedAround(b, f0, c)
    requires |copyEnd| == 256 && forall t {:trigger copyEnd[t]} :: 0 <= t < 256 ==> copyEnd[t] == Hi(b, t, c) - 1
    ensures Copying(b, f0, f, c, false, done, OuterList(b, f0, c, false), [], r, copyEnd)
  {
    hide Key, Start, Lo, Hi, Side, OuterRows, Outer, SortedAround, Placed, Run;
    PlacedRots(b, f0);
    OuterIs(b, f0, c, false);
    assert Preds(b, [], c) == [];
    forall t {:trigger done[t]} | 0 <= t < 256 ensures Lo(b, t, c) <= Hi(b, t, c) <= |b| {
      BucketRows(b, t, c);
    }
    assert forall t: nat :: Preds(b, [], t) == [];
  }

  // ---------- After both scans ----------

  /** Both scans have read all there is to read. */
  ghost predicate Scanned(b: Block, f0: seq<nat>, f: seq<nat>, c: Byte, done: seq<bool>, oU: seq<nat>, rU: seq<nat>,
                          oD: seq<nat>, rD: seq<nat>, copyEnd: seq<int>) {
    && Copying(b, f0, f, c, false, done, oD, rD, rU, copyEnd)
    && Outer(b, c, true, oU) && Good(b, c, true, rU)
    && rU == oU + Preds(b, rU, c) && rD == oD + Preds(b, rD, c)
  }

  /** The scans meet: every rotation that starts with c was read by one. */
  ghost predicate Met(b: Block, c: Byte, rU: seq<nat>, rD: seq<nat>) {
    forall x {:trigger b[x]} :: 0 <= x < |b| && b[x] == c ==> x in rU || x in rD
  }

  lemma SideRead(b: Block, c: Byte, up: bool, o: seq<nat>, r: seq<nat>, x: nat)
    requires Outer(b, c, up, o) && Good(b, c, up, r) && r == o + Preds(b, r, c)
    requires x < |b| && b[x] == c && Side(b, c, up, x)
    ensures x in r
  {
    hide Run, Outer, Good;
    var d: nat :| Leaves(b, c, up, x, d);
    WholeSide(b, c, up, o, r, x, d);
  }

  /** Either the scans meet, or the whole block is one byte. */
  lemma MeetOrConstant(b: Block, c: Byte, oU: seq<nat>, rU: seq<nat>, oD: seq<nat>, rD: seq<nat>)
    requires Outer(b, c, true, oU) && Good(b, c, true, rU) && rU == oU + Preds(b, rU, c)
    requires Outer(b, c, false, oD) && Good(b, c, false, rD) && rD == oD + Preds(b, rD, c)
    ensures Met(b, c, rU, rD) || forall z :: 0 <= z < |b| ==> b[z] == c
  {
    hide Run, Outer, Good, Side, Preds;
    if x :| 0 <= x < |b| && b[x] == c && !Side(b, c, true, x) && !Side(b, c, false, x) {
      forall z | 0 <= z < |b| ensures b[z] == c { AllOneByte(b, c, x, z); }
    } else {
      forall x {:trigger b[x]} | 0 <= x < |b| && b[x] == c ensures x in rU || x in rD {
        if Side(b, c, true, x) { SideRead(b, c, true, oU, rU, x); } else { SideRead(b, c, false, oD, rD, x); }
      }
    }
  }

  /** Where the scans meet, a row of an open bucket holds what the one or the
      other put there. */
  lemma RowCopied(b: Block, f0: seq<nat>, f: seq<nat>, c: Byte, done: seq<bool>, o: seq<nat>, rU: seq<nat>,
                  rD: seq<nat>, copyEnd: seq<int>, t: Byte, k: nat)
    requires Copying(b, f0, f, c, false, done, o, rD, rU, copyEnd) && Met(b, c, rU, rD)
    requires !done[t] && Lo(b, t, c) <= k < Hi(b, t, c)
    ensures var w, v, i, j := Preds(b, rU, t), Preds(b, rD, t), k - Lo(b, t, c), Hi(b, t, c) - 1 - k;
            k < |f| && |w| + |v| == Hi(b, t, c) - Lo(b, t, c) && if i < |w| then f[k] == w[i] else j < |v| && f[k] == v[j]
  {
    hide Run, Outer, Side, Start, Lo, Hi, Preds, Frame, OuterRows, Met, MoveToFront.Distinct;
    PlacedRots(b, f0);
    BucketRows(b, t, c);
    Room(b, f0, c, false, rD, rU, t);
    MetEverywhere(b, c, rU, rD);
    NoRoomLeft(b, f0, c, rU, rD, t);
    var w, v, i, j := Preds(b, rU, t), Preds(b, rD, t), k - Lo(b, t, c), Hi(b, t, c) - 1 - k;
    assert Filled(f, true, Lo(b, t, c), Hi(b, t, c), w) && Filled(f, false, Lo(b, t, c), Hi(b, t, c), v);
    if i < |w| {
      assert f[Place(true, Lo(b, t, c), Hi(b, t, c), i)] == w[i];
    } else {
      assert f[Place(false, Lo(b, t, c), Hi(b, t, c), j)] == v[j];
    }
  }

  lemma MetEverywhere(b: Block, c: Byte, rU: seq<nat>, rD: seq<nat>)
    requires Met(b, c, rU, rD)
    ensures forall x :: 0 <= x < |b| && b[x] == c ==> x in rU || x in rD
  {
  }

  /** Every row keeps its bucket. */
  lemma RowKeepsBucket(b: Block, f0: seq<nat>, f: seq<nat>, c: Byte, done: seq<bool>, o: seq<nat>, rU: seq<nat>,
                       rD: seq<nat>, copyEnd: seq<int>, k: nat)
    requires Copying(b, f0, f, c, false, done, o, rD, rU, copyEnd) && Met(b, c, rU, rD) && k < |b|
    ensures f0[k] < |b| && f[k] < |b| && Pair(b, f[k]) == Pair(b, f0[k])
  {
    hide Run, Outer, Side, Start, Pair, Preds, OuterRows, Met, MoveToFront.Distinct, Copies, Between;
    PlacedRots(b, f0);
    var x, t := f0[k], b[f0[k]];
    if Kept(b, c, done, x) {
      assert f[k] == f0[k];
    } else {
      PairParts(b, x, t, c);
      assert Start(b, Pair(b, f0[k])) <= k < Start(b, Pair(b, f0[k]) + 1);
      RowCopied(b, f0, f, c, done, o, rU, rD, copyEnd, t, k);
      PredsMembers(b, rU, t, f[k]);
      PredsMembers(b, rD, t, f[k]);
      PairParts(b, f[k], t, c);
    }
  }

  lemma RowsDiffer(b: Block, f0: seq<nat>, f: seq<nat>, c: Byte, done: seq<bool>, o: seq<nat>, rU: seq<nat>,
                   rD: seq<nat>, copyEnd: seq<int>, p: nat, q: nat)
    requires Copying(b, f0, f, c, false, done, o, rD, rU, copyEnd) && Met(b, c, rU, rD) && p < q < |b|
    ensures f[p] != f[q]
  {
    hide Run, Outer, Side, Start, Pair, Preds, OuterRows, Met, Copies, Between;
    PlacedRots(b, f0);
    RowKeepsBucket(b, f0, f, c, done, o, rU, rD, copyEnd, p);
    RowKeepsBucket(b, f0, f, c, done, o, rU, rD, copyEnd, q);
    if Pair(b, f0[p]) == Pair(b, f0[q]) {
      var t := b[f0[p]];
      SamePair(b, f0[p], f0[q]);
      if Kept(b, c, done, f0[p]) {
        assert f[p] == f0[p] && f[q] == f0[q];
      } else {
        PairParts(b, f0[p], t, c);
        assert Start(b, Pair(b, f0[p])) <= p < Start(b, Pair(b, f0[p]) + 1);
        assert Start(b, Pair(b, f0[q])) <= q < Start(b, Pair(b, f0[q]) + 1);
        RowCopied(b, f0, f, c, done, o, rU, rD, copyEnd, t, p);
        RowCopied(b, f0, f, c, done, o, rU, rD, copyEnd, t, q);
        BothDistinct(b, c, true, rU, rD, t);
        var w, v := Preds(b, rU, t), Preds(b, rD, t);
        var i := if p - Lo(b, t, c) < |w| then p - Lo(b, t, c) else |w| + Hi(b, t, c) - 1 - p;
        var j := if q - Lo(b, t, c) < |w| then q - Lo(b, t, c) else |w| + Hi(b, t, c) - 1 - q;
        assert i != j && f[p] == (w + v)[i] && f[q] == (w + v)[j];
      }
    }
  }

  lemma SamePair(b: Block, x: nat, y: nat)
    requires x < |b| && y < |b| && Pair(b, x) == Pair(b, y)
    ensures b[x] == b[y] && b[Next(b, x)] == b[Next(b, y)]
  {
  }

  /** What came from below is not larger than what came from above. */
  lemma AcrossOrdered(b: Block, c: Byte, rU: seq<nat>, rD: seq<nat>, t: Byte, i: nat, j: nat)
    requires Good(b, c, true, rU) && Good(b, c, false, rD) && i < |Preds(b, rU, t)| && j < |Preds(b, rD, t)|
    ensures Key(b, Preds(b, rU, t)[i], |b|) <= Key(b, Preds(b, rD, t)[j], |b|)
  {
    hide Run, Side, Preds, Key;
    var x, y := Preds(b, rU, t)[i], Preds(b, rD, t)[j];
    PredsMembers(b, rU, t, x);
    PredsMembers(b, rD, t, y);
    UpBelowDown(b, c, Next(b, x), Next(b, y));
    NextKeepsOrder(b, x, y);
  }

  lemma BucketCopied(b: Block, f0: seq<nat>, f: seq<nat>, c: Byte, done: seq<bool>, o: seq<nat>, rU: seq<nat>,
                     rD: seq<nat>, copyEnd: seq<int>, t: Byte)
    requires Copying(b, f0, f, c, false, done, o, rD, rU, copyEnd) && Met(b, c, rU, rD) && !done[t]
    requires Good(b, c, true, rU)
    ensures BucketSorted(b, f, t * 256 + c)
  {
    hide Outer, Side, Start, Pair, Preds, OuterRows, Met, Copies, Between, Key, Frame, Placed;
    PlacedRots(b, f0);
    BucketRows(b, t, c);
    var w, v := Preds(b, rU, t), Preds(b, rD, t);
    PredsRun(b, true, rU, t);
    PredsRun(b, false, rD, t);
    forall p, q {:trigger f[p], f[q]} | Lo(b, t, c) <= p < q < Hi(b, t, c) ensures Key(b, f[p], |b|) <= Key(b, f[q], |b|) {
      RowCopied(b, f0, f, c, done, o, rU, rD, copyEnd, t, p);
      RowCopied(b, f0, f, c, done, o, rU, rD, copyEnd, t, q);
      var i, j := Hi(b, t, c) - 1 - q, Hi(b, t, c) - 1 - p;
      if q - Lo(b, t, c) < |w| {
        assert InOrder(b, true, w[p - Lo(b, t, c)], w[q - Lo(b, t, c)]);
      } else if p - Lo(b, t, c) < |w| {
        AcrossOrdered(b, c, rU, rD, t, p - Lo(b, t, c), i);
      } else {
        assert InOrder(b, false, v[i], v[j]);
      }
    }
  }

  // ---------- A block of one byte ----------

  lemma {:induction false} NothingLeaves(b: Block, c: Byte, up: bool, x: nat, d: nat)
    requires x < |b| && forall z :: 0 <= z < |b| ==> b[z] == c
    ensures !Leaves(b, c, up, x, d)
    decreases d
  {
    if d > 0 { NothingLeaves(b, c, up, Next(b, x), d - 1); }
  }

  lemma NothingRead(b: Block, c: Byte, up: bool, r: seq<nat>)
    requires Good(b, c, up, r) && forall z :: 0 <= z < |b| ==> b[z] == c
    ensures r == []
  {
    hide Run;
    if r != [] {
      var d: nat :| Leaves(b, c, up, r[0], d);
      NothingLeaves(b, c, up, r[0], d);
    }
  }

  lemma ConstantBlock(b: Block, f0: seq<nat>, f: seq<nat>, c: Byte, done: seq<bool>, o: seq<nat>, rU: seq<nat>,
                      rD: seq<nat>, copyEnd: seq<int>)
    requires Copying(b, f0, f, c, false, done, o, rD, rU, copyEnd) && forall z :: 0 <= z < |b| ==> b[z] == c
    ensures f == f0 && forall s :: BucketSorted(b, f, s)
    ensures rU == [] && rD == [] && Lo(b, c, c) == 0 && Hi(b, c, c) == |b|
  {
    hide Outer, Side, Pair, Preds, OuterRows, Copies, Key, Good;
    NothingRead(b, c, true, rU);
    NothingRead(b, c, false, rD);
    PlacedRots(b, f0);
    ConstantRows(b, f0, c);
    forall k | 0 <= k < |b| ensures f[k] == f0[k] {
      NoPreds(b, b[f0[k]]);
      assert Between(b, c, false, rD, rU, b[f0[k]], k);
    }
    forall p, q | 0 <= p < q < |b| ensures Key(b, f[p], |b|) <= Key(b, f[q], |b|) {
      ConstantKeys(b, f[p], f[q], |b|);
    }
  }

  lemma NoPreds(b: Block, t: nat)
    requires b != []
    ensures Preds(b, [], t) == []
  {
  }

  lemma ConstantRows(b: Block, f: seq<nat>, c: Byte)
    requires Placed(b, f) && forall z :: 0 <= z < |b| ==> b[z] == c
    ensures Lo(b, c, c) == 0 && Hi(b, c, c) == |b|
  {
    hide Start;
    PairParts(b, f[0], c, c);
    PairParts(b, f[|b| - 1], c, c);
  }

  // ---------- The outcome ----------

  /** After step 2: the order is still one by small buckets, all buckets [t, c]
      of open t are sorted, all others as before, and assertion 1007 holds. */
  lemma Copied(b: Block, f0: seq<nat>, f: seq<nat>, c: Byte, done: seq<bool>, oU: seq<nat>, rU: seq<nat>,
               oD: seq<nat>, rD: seq<nat>, copyEnd: seq<int>)
    requires Scanned(b, f0, f, c, done, oU, rU, oD, rD, copyEnd)
    ensures Placed(b, f)
    ensures forall t {:trigger done[t]} :: 0 <= t < 256 && !done[t] ==> BucketSorted(b, f, t * 256 + c)
    ensures forall k {:trigger f[k]} :: 0 <= k < |b| && f0[k] < |b| && Kept(b, c, done, f0[k]) ==> f[k] == f0[k]
    ensures Lo(b, c, c) + |Preds(b, rU, c)| - 1 == copyEnd[c] || (Lo(b, c, c) == 0 && rU == [] && copyEnd[c] == |b| - 1)
  {
    hide Outer, Side, Start, Pair, Preds, OuterRows, Met, Key, Run, MoveToFront.Distinct, Lo, Hi;
    PlacedRots(b, f0);
    MeetOrConstant(b, c, oU, rU, oD, rD);
    if Met(b, c, rU, rD) {
      forall k | 0 <= k < |b| ensures f[k] < |b| && Start(b, Pair(b, f[k])) <= k < Start(b, Pair(b, f[k]) + 1) {
        RowKeepsBucket(b, f0, f, c, done, oD, rU, rD, copyEnd, k);
      }
      forall p, q | 0 <= p < q < |b| ensures f[p] != f[q] {
        RowsDiffer(b, f0, f, c, done, oD, rU, rD, copyEnd, p, q);
      }
      forall t {:trigger done[t]} | 0 <= t < 256 && !done[t] ensures BucketSorted(b, f, t * 256 + c) {
        BucketCopied(b, f0, f, c, done, oD, rU, rD, copyEnd, t);
      }
      Room(b, f0, c, true, rU, rD, c);
      MetEverywhere(b, c, rU, rD);
      NoRoomLeft(b, f0, c, rU, rD, c);
    } else {
      ConstantBlock(b, f0, f, c, done, oD, rU, rD, copyEnd);
      NoPreds(b, c);
    }
  }
}
