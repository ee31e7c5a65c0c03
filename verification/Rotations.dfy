/** Cyclic rotations of a block, ordered by their first bytes. */
module Rotations {
  import opened Arith

  type Block = seq<Byte>

  /** Byte k of rotation i. */
  function Char(b: Block, i: nat, k: nat): Byte
    requires b != []
  {
    b[(i + k) % |b|]
  }

  /** The first d bytes of rotation i, read as a base-256 number: comparing
      these numbers compares the prefixes lexicographically. */
  function Key(b: Block, i: nat, d: nat): nat
    requires b != []
  {
    if d == 0 then 0 else Key(b, i, d - 1) * 256 + Char(b, i, d - 1)
  }

  ghost predicate Agree(b: Block, i: nat, j: nat, d: nat)
    requires b != []
  {
    forall k: nat :: k < d ==> Char(b, i, k) == Char(b, j, k)
  }

  /** Rotation i is smaller than rotation j on the first d bytes: they agree
      up to some byte, and there i has the smaller one. */
  ghost predicate LexLess(b: Block, i: nat, j: nat, d: nat)
    requires b != []
  {
    exists k: nat :: k < d && Agree(b, i, j, k) && Char(b, i, k) < Char(b, j, k)
  }

  lemma {:induction false} KeyIsLex(b: Block, i: nat, j: nat, d: nat)
    requires b != []
    ensures Key(b, i, d) < Key(b, j, d) <==> LexLess(b, i, j, d)
    ensures Key(b, i, d) == Key(b, j, d) <==> Agree(b, i, j, d)
  {
    hide Char, Agree, LexLess;
    if d == 0 {
      LexEmpty(b, i, j);
    } else {
      KeyIsLex(b, i, j, d - 1);
      LexStep(b, i, j, d);
    }
  }

  /** A block of one byte value. */
  ghost predicate Constant(b: Block) {
    forall i :: 0 <= i < |b| ==> b[i] == b[0]
  }

  lemma {:induction false} ConstantKeys(b: Block, x: nat, y: nat, d: nat)
    requires b != [] && Constant(b)
    ensures Key(b, x, d) == Key(b, y, d)
  {
    if d > 0 {
      ConstantKeys(b, x, y, d - 1);
    }
  }

  lemma LexEmpty(b: Block, i: nat, j: nat)
    requires b != []
    ensures Agree(b, i, j, 0) && !LexLess(b, i, j, 0)
  {
  }

  lemma LexStep(b: Block, i: nat, j: nat, d: nat)
    requires b != [] && d > 0
    ensures var x, y := Char(b, i, d - 1), Char(b, j, d - 1);
            && (Agree(b, i, j, d) <==> Agree(b, i, j, d - 1) && x == y)
            && (LexLess(b, i, j, d) <==> LexLess(b, i, j, d - 1) || (Agree(b, i, j, d - 1) && x < y))
  {
    hide Char;
    if LexLess(b, i, j, d) {
      var k: nat :| k < d && Agree(b, i, j, k) && Char(b, i, k) < Char(b, j, k);
      assert k < d - 1 || k == d - 1;
    }
  }

  lemma ModPlus(i: nat, k: nat, n: nat)
    requires n > 0
    ensures (i % n + k) % n == (i + k) % n
  {
    DivDef(i, n);
    DivDef(i % n + k, n);
    var q := (i % n + k) / n;
    Distribute(i / n, q, n);
    DivUnique(i + k, n, i / n + q, (i % n + k) % n);
  }

  lemma {:induction false} KeyMod(b: Block, i: nat, d: nat)
    requires b != []
    ensures Key(b, i % |b|, d) == Key(b, i, d)
  {
    if d > 0 {
      KeyMod(b, i, d - 1);
      ModPlus(i, d - 1, |b|);
    }
  }

  lemma CharShift(b: Block, i: nat, d: nat, k: nat)
    requires b != []
    ensures Char(b, i + d, k) == Char(b, i, d + k)
  {
    assert i + d + k == i + (d + k);
  }

  /** Comparing d + e bytes is comparing d bytes, then the next e. */
  lemma {:induction false} KeySplit(b: Block, i: nat, j: nat, d: nat, e: nat)
    requires b != []
    ensures Key(b, i, d + e) < Key(b, j, d + e) <==>
      Key(b, i, d) < Key(b, j, d) || (Key(b, i, d) == Key(b, j, d) && Key(b, i + d, e) < Key(b, j + d, e))
    ensures Key(b, i, d + e) == Key(b, j, d + e) <==>
      Key(b, i, d) == Key(b, j, d) && Key(b, i + d, e) == Key(b, j + d, e)
  {
    hide Char;
    if e > 0 {
      KeySplit(b, i, j, d, e - 1);
      CharShift(b, i, d, e - 1);
      CharShift(b, j, d, e - 1);
    }
  }

  lemma {:induction false} KeyPrefix(b: Block, i: nat, j: nat, d: nat, e: nat)
    requires b != [] && d <= e && Key(b, i, e) <= Key(b, j, e)
    ensures Key(b, i, d) <= Key(b, j, d)
    decreases e
  {
    hide Char;
    if d < e {
      KeyPrefix(b, i, j, d, e - 1);
    }
  }

  lemma KeyOne(b: Block, i: nat)
    requires b != []
    ensures Key(b, i, 1) == Char(b, i, 0)
  {
    assert Key(b, i, 0) == 0;
  }

  /** Rotations equal on all |b| bytes agree for ever. */
  lemma EqualRotations(b: Block, i: nat, j: nat, k: nat)
    requires b != [] && Key(b, i, |b|) == Key(b, j, |b|)
    ensures Char(b, i, k) == Char(b, j, k)
  {
    KeyIsLex(b, i, j, |b|);
    ModPlus(k, i, |b|);
    ModPlus(k, j, |b|);
    assert Char(b, i, k % |b|) == Char(b, j, k % |b|);
  }

  lemma EqualRotationsShift(b: Block, i: nat, j: nat, m: nat, d: nat)
    requires b != [] && Key(b, i, |b|) == Key(b, j, |b|)
    ensures Key(b, i + m, d) == Key(b, j + m, d)
  {
    hide Char, Key;
    var p, q := i + m, j + m;
    forall k: nat | k < d ensures Char(b, p, k) == Char(b, q, k) {
      CharShift(b, i, m, k);
      CharShift(b, j, m, k);
      EqualRotations(b, i, j, m + k);
    }
    KeyIsLex(b, i + m, j + m, d);
  }

  // ---------- Neighbours ----------

  /** The rotation before i. */
  function Pred(i: nat, n: nat): (j: nat)
    requires n > 0
    ensures j < n
  {
    (i + n - 1) % n
  }

  /** The rotation before i starts with i's last byte and goes on like i. */
  lemma PreviousRotation(b: Block, i: nat, d: nat)
    requires b != [] && i < |b|
    ensures var j := Pred(i, |b|);
            Char(b, j, 0) == Char(b, i, |b| - 1) && Key(b, j + 1, d) == Key(b, i, d)
  {
    var n := |b|;
    var j := Pred(i, n);
    ModPlus(i + n - 1, 0, n);
    ModPlus(i + n - 1, 1, n);
    KeyMod(b, j + 1, d);
    KeyMod(b, i, d);
    WrapAround(i, n);
    assert (j + 1) % n == i % n;
  }

  lemma WrapAround(i: nat, n: nat)
    requires n > 0
    ensures (i + n) % n == i % n
  {
    DivDef(i, n);
    Distribute(i / n, 1, n);
    DivUnique(i + n, n, i / n + 1, i % n);
  }

  lemma SuccessorOfPredecessor(i: nat, n: nat)
    requires i < n
    ensures (Pred(i, n) + 1) % n == i
  {
    ModPlus(i + n - 1, 1, n);
    WrapAround(i, n);
    DivUnique(i, n, 0, i);
  }

  // ---------- Permutations ----------

  ghost predicate Permutation(f: seq<nat>) {
    && (forall k :: 0 <= k < |f| ==> f[k] < |f|)
    && (forall j, k :: 0 <= j < k < |f| ==> f[j] != f[k])
  }

  ghost function Below(n: nat): (s: set<nat>)
    ensures |s| == n && forall x: nat :: x in s <==> x < n
  {
    if n == 0 then {} else Below(n - 1) + {n - 1}
  }

  ghost function Elements(f: seq<nat>): (s: set<nat>)
    ensures forall x :: x in s <==> x in f
  {
    set x | x in f
  }

  lemma {:induction false} DistinctCount(f: seq<nat>)
    requires forall j, k :: 0 <= j < k < |f| ==> f[j] != f[k]
    ensures |Elements(f)| == |f|
  {
    if f != [] {
      var last, rest := f[|f| - 1], f[..|f| - 1];
      DistinctCount(rest);
      assert Elements(f) == Elements(rest) + {last};
    }
  }

  lemma SubsetCount<T>(s: set<T>, t: set<T>)
    requires s <= t
    ensures |s| <= |t|
  {
    assert t == s + (t - s);
  }

  lemma SubsetSameCount<T>(s: set<T>, t: set<T>)
    requires s <= t && |s| == |t|
    ensures s == t
  {
    assert t == s + (t - s);
  }

  lemma Onto(f: seq<nat>, v: nat)
    requires Permutation(f) && v < |f|
    ensures v in f
  {
    DistinctCount(f);
    SubsetSameCount(Elements(f), Below(|f|));
    assert v in Elements(f);
  }

  // ---------- Sorted rotations ----------

  /** The rows of f list rotations in weak order on their first d bytes. */
  ghost predicate SortedTo(b: Block, f: seq<nat>, d: nat)
    requires b != []
  {
    forall j, k :: 0 <= j < k < |f| ==> Key(b, f[j], d) <= Key(b, f[k], d)
  }

  ghost predicate SortsRotations(b: Block, f: seq<nat>) {
    b != [] && |f| == |b| && Permutation(f) && SortedTo(b, f, |b|)
  }

  ghost predicate SortsTo(b: Block, f: seq<nat>, d: nat) {
    b != [] && |f| == |b| && Permutation(f) && SortedTo(b, f, d)
  }

  /** Two sorted listings of the rotations agree row by row on every key:
      ties may be broken differently, contents may not. */
  lemma SortedListsAgree(b: Block, f: seq<nat>, g: seq<nat>, d: nat, k: nat)
    requires SortsTo(b, f, d) && SortsTo(b, g, d) && k < |b|
    ensures Key(b, f[k], d) == Key(b, g[k], d)
  {
    SortedListsAgreeHalf(b, f, g, d, k);
    SortedListsAgreeHalf(b, g, f, d, k);
  }

  lemma SortedListsAgreeHalf(b: Block, f: seq<nat>, g: seq<nat>, d: nat, k: nat)
    requires SortsTo(b, f, d) && SortsTo(b, g, d) && k < |b|
    ensures Key(b, f[k], d) >= Key(b, g[k], d)
  {
    hide Key;
    if Key(b, f[k], d) < Key(b, g[k], d) {
      // The k + 1 rows f[..k + 1] would all lie among the k rows g[..k].
      forall v | v in Elements(f[..k + 1]) ensures v in Elements(g[..k]) {
        SmallerRowIsEarlier(b, f, g, d, k, v);
      }
      DistinctCount(f[..k + 1]);
      DistinctCount(g[..k]);
      SubsetCount(Elements(f[..k + 1]), Elements(g[..k]));
    }
  }

  lemma SmallerRowIsEarlier(b: Block, f: seq<nat>, g: seq<nat>, d: nat, k: nat, v: nat)
    requires SortsTo(b, f, d) && SortsTo(b, g, d) && k < |b| && v in f[..k + 1]
    requires Key(b, f[k], d) < Key(b, g[k], d)
    ensures v in g[..k]
  {
    hide Key;
    var j :| 0 <= j < k + 1 && f[j] == v;
    assert Key(b, v, d) <= Key(b, f[k], d);
    Onto(g, v);
    var i :| 0 <= i < |b| && g[i] == v;
    assert Key(b, g[i], d) < Key(b, g[k], d);
    assert i < k;
    assert g[..k][i] == v;
  }

  // ---------- The last column ----------

  function LastColumn(b: Block, f: seq<nat>): (r: Block)
    requires b != []
    ensures |r| == |f|
  {
    seq(|f|, k requires 0 <= k < |f| => Char(b, f[k], |b| - 1))
  }

  /** Any two sorts of the rotations give the same last column. */
  lemma LastColumnIsCanonical(b: Block, f: seq<nat>, g: seq<nat>)
    requires SortsRotations(b, f) && SortsRotations(b, g)
    ensures LastColumn(b, f) == LastColumn(b, g)
  {
    hide Char, Key;
    forall k | 0 <= k < |b| ensures Char(b, f[k], |b| - 1) == Char(b, g[k], |b| - 1) {
      SortedListsAgree(b, f, g, |b|, k);
      EqualRotations(b, f[k], g[k], |b| - 1);
    }
  }
}
