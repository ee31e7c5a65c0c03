/** Undoing the block sort: T^(-1) by counting sort (fast decoder) or by
    reversing T along one cycle (small decoder), and why walking it gives
    the block back. decompress.c, the end of BZ2_decompress. */
module InverseBwt {
  import opened Arith
  import opened CountingSort
  import opened Rotations

  /** Follow the stable order of the last column m times from row o. */
  function Walk(last: Block, o: nat, m: nat): nat
    requires o < |last| && |StableOrder(last, 256)| == |last|
    requires forall x :: 0 <= x < |last| ==> StableOrder(last, 256)[x] < |last|
    ensures Walk(last, o, m) < |last|
  {
    if m == 0 then o else StableOrder(last, 256)[Walk(last, o, m - 1)]
  }

  lemma OrderIsPermutation(last: Block)
    ensures |StableOrder(last, 256)| == |last| && Permutation(StableOrder(last, 256))
  {
    OrderIsFull(last, 256);
    StableOrderFacts(last, 256);
    forall x, y | 0 <= x < y < |last| ensures StableOrder(last, 256)[x] != StableOrder(last, 256)[y] {
      StableOrderDistinct(last, 256, x, y);
    }
  }

  /** The byte in the first column of row k. */
  function FirstColumn(last: Block, k: nat): Byte
    requires k < |StableOrder(last, 256)| && StableOrder(last, 256)[k] < |last|
  {
    last[StableOrder(last, 256)[k]]
  }

  /** What the decoder emits: the first column along the walk from o. */
  function Unsort(last: Block, o: nat, m: nat): (r: Block)
    requires o < |last|
    ensures |r| == m
  {
    OrderIsPermutation(last);
    if m == 0 then [] else Unsort(last, o, m - 1) + [FirstColumn(last, Walk(last, o, m - 1))]
  }

  // ---------- Walking T^(-1) restores the block ----------

  /** Rotation f[P[k]] - 1: row k after moving every last byte to the front. */
  ghost function Shifted(b: Block, f: seq<nat>, p: seq<nat>): (g: seq<nat>)
    requires b != [] && forall k :: 0 <= k < |p| ==> p[k] < |f|
    ensures |g| == |p| && forall k :: 0 <= k < |p| ==> g[k] == Pred(f[p[k]], |b|)
  {
    seq(|p|, k requires 0 <= k < |p| => Pred(f[p[k]], |b|))
  }

  /** Sorting stably by last byte leaves the shifted rows sorted. */
  lemma ShiftedSorted(b: Block, f: seq<nat>, j: nat, k: nat)
    requires SortsRotations(b, f) && j < |b| && k < |b|
    requires Before(LastColumn(b, f), j, k)
    ensures Key(b, Pred(f[j], |b|), |b|) <= Key(b, Pred(f[k], |b|), |b|)
  {
    hide Char, Key, Pred;
    var n := |b|;
    var x, y := Pred(f[j], n), Pred(f[k], n);
    PreviousRotation(b, f[j], n - 1);
    PreviousRotation(b, f[k], n - 1);
    KeyOne(b, x);
    KeyOne(b, y);
    KeySplit(b, y, x, 1, n - 1);
    if j < k {
      KeyPrefix(b, f[j], f[k], n - 1, n);
    }
  }

  lemma ShiftedSorts(b: Block, f: seq<nat>)
    requires SortsRotations(b, f)
    ensures var p := StableOrder(LastColumn(b, f), 256);
            |p| == |b| && Permutation(p) && SortsRotations(b, Shifted(b, f, p))
  {
    hide Char, Key, Pred;
    var n, last := |b|, LastColumn(b, f);
    OrderIsPermutation(last);
    StableOrderFacts(last, 256);
    var p := StableOrder(last, 256);
    var g := Shifted(b, f, p);
    forall j, k | 0 <= j < k < n ensures g[j] != g[k] {
      SuccessorOfPredecessor(f[p[j]], n);
      SuccessorOfPredecessor(f[p[k]], n);
    }
    forall j, k | 0 <= j < k < n ensures Key(b, g[j], n) <= Key(b, g[k], n) {
      ShiftedSorted(b, f, p[j], p[k]);
    }
  }

  lemma SortLength(b: Block, f: seq<nat>)
    requires SortsRotations(b, f)
    ensures b != [] && |f| == |b| && Permutation(f)
  {
    hide Key;
  }

  /** One step of the walk moves, up to equality of rotations, to the next one. */
  lemma OneStep(b: Block, f: seq<nat>, k: nat)
    requires SortsRotations(b, f) && k < |b|
    ensures var p := StableOrder(LastColumn(b, f), 256);
            |p| == |b| && p[k] < |b| && Key(b, f[p[k]], |b|) == Key(b, f[k] + 1, |b|)
            && FirstColumn(LastColumn(b, f), k) == Char(b, f[k], 0)
  {
    hide Char, Key, Pred, StableOrder;
    var n := |b|;
    SortLength(b, f);
    ShiftedSorts(b, f);
    var p := StableOrder(LastColumn(b, f), 256);
    var g := Shifted(b, f, p);
    SortedListsAgree(b, f, g, n, k);
    PreviousRotation(b, f[p[k]], n);
    EqualRotationsShift(b, f[k], g[k], 1, n);
    EqualRotations(b, f[k], g[k], 0);
  }

  lemma {:induction false} WalkFollows(b: Block, f: seq<nat>, o: nat, m: nat)
    requires SortsRotations(b, f) && o < |b|
    ensures (OrderIsPermutation(LastColumn(b, f));
             Key(b, f[Walk(LastColumn(b, f), o, m)], |b|) == Key(b, f[o] + m, |b|))
  {
    hide Char, Key;
    OrderIsPermutation(LastColumn(b, f));
    if m > 0 {
      WalkFollows(b, f, o, m - 1);
      var r := Walk(LastColumn(b, f), o, m - 1);
      OneStep(b, f, r);
      EqualRotationsShift(b, f[r], f[o] + (m - 1), 1, |b|);
    }
  }

  /** Any sort of the rotations, any row o: the walk emits rotation f[o],
      also for periodic blocks, where T splits into several cycles. */
  lemma {:induction false} UnsortGivesRotation(b: Block, f: seq<nat>, o: nat, m: nat)
    requires SortsRotations(b, f) && o < |b|
    ensures forall k :: 0 <= k < m ==> Unsort(LastColumn(b, f), o, m)[k] == Char(b, f[o], k)
  {
    hide Char, Key;
    if m > 0 {
      UnsortGivesRotation(b, f, o, m - 1);
      OrderIsPermutation(LastColumn(b, f));
      var r := Walk(LastColumn(b, f), o, m - 1);
      WalkFollows(b, f, o, m - 1);
      OneStep(b, f, r);
      EqualRotations(b, f[r], f[o] + (m - 1), 0);
      CharShift(b, f[o], m - 1, 0);
    }
  }

  lemma UnsortRestores(b: Block, f: seq<nat>, o: nat)
    requires SortsRotations(b, f) && o < |b| && f[o] == 0
    ensures Unsort(LastColumn(b, f), o, |b|) == b
  {
    hide Char, Key;
    UnsortGivesRotation(b, f, o, |b|);
    forall k | 0 <= k < |b| ensures Char(b, 0, k) == b[k] {
      CharOfBlock(b, k);
    }
  }

  lemma CharOfBlock(b: Block, k: nat)
    requires k < |b|
    ensures Char(b, 0, k) == b[k]
  {
    DivUnique(k, |b|, 0, k);
  }

  // ---------- The fast decoder's table ----------

  /** `a | b` when b has no bits where a may have some. */
  function OrHigh(a: nat, b: nat): nat
    requires a < 256 && b % 256 == 0
  {
    a + b
  }

  /** tt[k] packs the stored byte k below row k of T^(-1). */
  ghost predicate FastTable(tt: seq<nat>, last: Block) {
    && |tt| >= |last| == |StableOrder(last, 256)|
    && (forall k :: 0 <= k < |last| ==> tt[k] == last[k] + 256 * StableOrder(last, 256)[k])
  }

  ghost predicate Counts(cftab: seq<nat>, last: Block) {
    |cftab| == 257 && forall c :: 0 <= c <= 256 ==> cftab[c] == CountBelow(last, c, |last|)
  }

  /** The table after the first i bytes have been linked. */
  ghost function Linked(last: Block, i: nat): (r: seq<nat>)
    requires |StableOrder(last, 256)| == |last|
    ensures |r| == |last|
  {
    seq(|last|, k requires 0 <= k < |last| =>
      last[k] + (if StableOrder(last, 256)[k] < i then 256 * StableOrder(last, 256)[k] else 0))
  }

  lemma LinkStep(last: Block, i: nat)
    requires i < |last|
    ensures Row(last, i) < |last| == |StableOrder(last, 256)|
    ensures Linked(last, i)[Row(last, i)] == last[Row(last, i)]
    ensures Linked(last, i + 1) == Linked(last, i)[Row(last, i) := last[Row(last, i)] + 256 * i]
  {
    OrderIsPermutation(last);
    RowFindsPosition(last, 256, i);
  }

  /** The T^(-1) loop of the fast decoder. */
  method BuildFast(tt: array<nat>, cftab: array<nat>, nblock: nat, ghost last: Block)
    requires tt != cftab && |last| == nblock <= tt.Length && Counts(cftab[..], last)
    requires forall k :: 0 <= k < nblock ==> tt[k] == last[k]
    modifies tt, cftab
    ensures FastTable(tt[..], last)
  {
    hide StableOrder, CountBelow, Linked;
    OrderIsPermutation(last);
    NothingLinked(last);
    assert tt[..nblock] == last;
    for i := 0 to nblock
      invariant tt[..nblock] == Linked(last, i)
      invariant forall c :: 0 <= c < 256 ==> cftab[c] == CountBelow(last, c, nblock) + |Positions(last, c, i)|
    {
      LinkedByte(last, i, i);
      assert tt[i] == Linked(last, i)[i];
      var uc := tt[i] % 256;
      LinkStep(last, i);
      var k := cftab[uc];
      assert tt[k] == Linked(last, i)[k];
      tt[k] := OrHigh(tt[k], i * 256);
      cftab[uc] := cftab[uc] + 1;
    }
    AllLinked(last);
    assert forall k :: 0 <= k < nblock ==> tt[k] == tt[..nblock][k];
  }

  lemma NothingLinked(last: Block)
    requires |StableOrder(last, 256)| == |last|
    ensures Linked(last, 0) == last
  {
  }

  lemma LinkedByte(last: Block, i: nat, k: nat)
    requires |StableOrder(last, 256)| == |last| && k < |last|
    ensures Linked(last, i)[k] % 256 == last[k]
  {
  }

  lemma AllLinked(last: Block)
    requires |StableOrder(last, 256)| == |last| && Permutation(StableOrder(last, 256))
    ensures forall k :: 0 <= k < |last| ==> Linked(last, |last|)[k] == last[k] + 256 * StableOrder(last, 256)[k]
  {
  }

  // ---------- The small decoder's 20-bit packed table ----------

  function GetNibble(ll4: seq<nat>, i: nat): nat
    requires i / 2 < |ll4|
  {
    if i % 2 == 0 then ll4[i / 2] % 16 else ll4[i / 2] / 16 % 16
  }

  /** GET_LL. */
  function GetLL(ll16: seq<nat>, ll4: seq<nat>, i: nat): nat
    requires i < |ll16| && i / 2 < |ll4|
  {
    ll16[i] + 65536 * GetNibble(ll4, i)
  }

  /** SET_LL: sixteen bits in one array, four in half a byte of the other. */
  method SetLL(ll16: array<nat>, ll4: array<Byte>, i: nat, n: nat)
    requires ll16 as object != ll4 && i < ll16.Length && i / 2 < ll4.Length && n < 0x100000
    modifies ll16, ll4
    ensures ll16[..] == old(ll16[..])[i := n % 65536]
    ensures GetLL(ll16[..], ll4[..], i) == n
    ensures forall k :: 0 <= k < ll16.Length && k / 2 < ll4.Length && k != i ==>
      GetLL(ll16[..], ll4[..], k) == old(GetLL(ll16[..], ll4[..], k))
  {
    ll16[i] := n % 65536;
    var x, h := ll4[i / 2], n / 65536;
    ll4[i / 2] := if i % 2 == 0 then x / 16 * 16 + h else x % 16 + h * 16;
  }

  /** T itself: row i of T is where byte i lands in the stable order. */
  ghost predicate RowTable(ll16: seq<nat>, ll4: seq<nat>, last: Block) {
    && |last| <= |ll16| && (|last| + 1) / 2 <= |ll4|
    && (forall i :: 0 <= i < |last| ==> GetLL(ll16, ll4, i) == Row(last, i))
  }

  method BuildRows(ll16: array<nat>, ll4: array<Byte>, cftabCopy: array<nat>, nblock: nat, ghost last: Block)
    requires ll16 as object != ll4 && ll16 != cftabCopy && ll4 as object != cftabCopy
    requires |last| == nblock <= ll16.Length && (nblock + 1) / 2 <= ll4.Length && nblock <= 900000
    requires Counts(cftabCopy[..], last) && forall k :: 0 <= k < nblock ==> ll16[k] == last[k]
    modifies ll16, ll4, cftabCopy
    ensures RowTable(ll16[..], ll4[..], last)
  {
    OrderIsPermutation(last);
    for i := 0 to nblock
      invariant forall k :: i <= k < nblock ==> ll16[k] == last[k]
      invariant forall k :: 0 <= k < i ==> GetLL(ll16[..], ll4[..], k) == Row(last, k)
      invariant forall c :: 0 <= c < 256 ==> cftabCopy[c] == CountBelow(last, c, nblock) + |Positions(last, c, i)|
    {
      var uc := ll16[i];
      RowFindsPosition(last, 256, i);
      assert cftabCopy[uc] == Row(last, i);
      SetLL(ll16, ll4, i, cftabCopy[uc]);
      cftabCopy[uc] := cftabCopy[uc] + 1;
    }
  }

  // ---------- Pointer reversal ----------

  /** path runs along T from its first row; every row in it but the first
      already points back to its predecessor, all others still hold T. */
  ghost predicate Reversing(ll: seq<nat>, last: Block, path: seq<nat>) {
    && |ll| == |last| && path != []
    && (forall a :: 0 <= a < |path| ==> path[a] < |last|)
    && (forall a, c :: 0 <= a < c < |path| ==> path[a] != path[c])
    && (forall a :: 0 < a < |path| ==> path[a] == Row(last, path[a - 1]) && ll[path[a]] == path[a - 1])
    && (forall x :: 0 <= x < |last| && x !in path[1..] ==> ll[x] == Row(last, x))
  }

  /** The reversed cycle: on it the table now is T^(-1). */
  ghost predicate Reversed(ll: seq<nat>, last: Block, o: nat) {
    && |ll| == |last| == |StableOrder(last, 256)| && o < |last|
    && Permutation(StableOrder(last, 256))
    && (forall m: nat :: ll[Walk(last, o, m)] == Walk(last, o, m + 1))
  }

  lemma NextIsFresh(ll: seq<nat>, last: Block, path: seq<nat>)
    requires Reversing(ll, last, path)
    ensures var j := Row(last, path[|path| - 1]);
            j < |last| && j !in path[1..] && ll[j] == Row(last, j)
  {
    var i := path[|path| - 1];
    var j := Row(last, i);
    OrderIsPermutation(last);
    RowFindsPosition(last, 256, i);
    forall a | 0 < a < |path| ensures path[a] != j {
      RowFindsPosition(last, 256, path[a - 1]);
    }
    assert forall x :: x in path[1..] ==> exists a :: 0 < a < |path| && path[a] == x;
  }

  lemma ReverseStep(ll: seq<nat>, last: Block, path: seq<nat>)
    requires Reversing(ll, last, path) && Row(last, path[|path| - 1]) != path[0]
    ensures var i := path[|path| - 1];
            var j := Row(last, i);
            j < |last| && Reversing(ll[j := i], last, path + [j])
  {
    hide Row;
    NextIsFresh(ll, last, path);
    var i := path[|path| - 1];
    var j := Row(last, i);
    var q, done := path + [j], ll[j := i];
    assert q[1..] == path[1..] + [j];
    forall a | 0 <= a < |path| ensures path[a] != j {
      assert a > 0 ==> path[a] == path[1..][a - 1];
    }
    forall a | 0 < a < |q| ensures q[a] == Row(last, q[a - 1]) && done[q[a]] == q[a - 1] {
    }
    assert q[1..][|path| - 1] == j;
    forall x | 0 <= x < |last| && x !in q[1..] ensures done[x] == Row(last, x) {
      assert x !in path[1..] && x != j;
    }
  }

  lemma PathFits(ll: seq<nat>, last: Block, path: seq<nat>)
    requires Reversing(ll, last, path)
    ensures |path| <= |last|
  {
    DistinctCount(path);
    assert forall x :: x in path ==> exists a :: 0 <= a < |path| && path[a] == x;
    SubsetCount(Elements(path), Below(|last|));
  }

  lemma CycleIsReversed(ll: seq<nat>, last: Block, path: seq<nat>, a: nat)
    requires Reversing(ll, last, path) && Row(last, path[|path| - 1]) == path[0]
    requires a < |path| && |StableOrder(last, 256)| == |last|
    ensures var i := if a == 0 then path[|path| - 1] else path[a - 1];
            ll[path[0] := path[|path| - 1]][path[a]] == i == StableOrder(last, 256)[path[a]]
  {
    hide StableOrder, Row;
    RowFindsPosition(last, 256, if a == 0 then path[|path| - 1] else path[a - 1]);
  }

  /** On the closed path the table is T^(-1), which stays on it. */
  lemma ClosedPath(ll: seq<nat>, last: Block, path: seq<nat>)
    requires Reversing(ll, last, path) && Row(last, path[|path| - 1]) == path[0]
    requires |StableOrder(last, 256)| == |last|
    ensures forall x :: x in path ==>
      x < |last| && StableOrder(last, 256)[x] in path && ll[path[0] := path[|path| - 1]][x] == StableOrder(last, 256)[x]
  {
    hide StableOrder, Row;
    forall x | x in path
      ensures x < |last| && StableOrder(last, 256)[x] in path && ll[path[0] := path[|path| - 1]][x] == StableOrder(last, 256)[x]
    {
      var a :| 0 <= a < |path| && path[a] == x;
      CycleIsReversed(ll, last, path, a);
      assert path[if a == 0 then |path| - 1 else a - 1] in path;
    }
  }

  lemma ReverseClosed(ll: seq<nat>, last: Block, path: seq<nat>)
    requires Reversing(ll, last, path) && Row(last, path[|path| - 1]) == path[0]
    ensures Reversed(ll[path[0] := path[|path| - 1]], last, path[0])
  {
    hide StableOrder, Row;
    OrderIsPermutation(last);
    ClosedPath(ll, last, path);
    forall m: nat ensures ll[path[0] := path[|path| - 1]][Walk(last, path[0], m)] == Walk(last, path[0], m + 1) {
      StaysOnPath(last, path, path[0], m);
    }
  }

  lemma {:induction false} StaysOnPath(last: Block, path: seq<nat>, o: nat, m: nat)
    requires o in path && o < |last| == |StableOrder(last, 256)| && Permutation(StableOrder(last, 256))
    requires forall x :: x in path ==> x < |last| && StableOrder(last, 256)[x] in path
    ensures Walk(last, o, m) in path
  {
    hide StableOrder, Permutation;
    if m > 0 {
      StaysOnPath(last, path, o, m - 1);
    }
  }

  ghost function Rows(ll16: seq<nat>, ll4: seq<nat>, n: nat): (r: seq<nat>)
    requires n <= |ll16| && (n + 1) / 2 <= |ll4|
    ensures |r| == n && forall k :: 0 <= k < n ==> r[k] == GetLL(ll16, ll4, k)
  {
    seq(n, k requires 0 <= k < n => GetLL(ll16, ll4, k))
  }

  /** Compute T^(-1) on the cycle of origPtr by reversing the links of T. */
  method ReversePointers(ll16: array<nat>, ll4: array<Byte>, origPtr: nat, ghost last: Block)
    requires ll16 as object != ll4 && RowTable(ll16[..], ll4[..], last) && origPtr < |last| <= 900000
    modifies ll16, ll4
    ensures Reversed(Rows(ll16[..], ll4[..], |last|), last, origPtr)
  {
    var i := origPtr;
    ghost var path, n := [i], |last|;
    NextIsFresh(Rows(ll16[..], ll4[..], n), last, path);
    var j := GetLL(ll16[..], ll4[..], i);
    while true
      invariant Reversing(Rows(ll16[..], ll4[..], n), last, path)
      invariant path[0] == origPtr && path[|path| - 1] == i && j == Row(last, i) < n
      decreases n - |path|
    {
      ghost var ll := Rows(ll16[..], ll4[..], n);
      NextIsFresh(ll, last, path);
      var tmp := GetLL(ll16[..], ll4[..], j);
      SetLL(ll16, ll4, j, i);
      assert Rows(ll16[..], ll4[..], n) == ll[j := i];
      if j == origPtr {
        ReverseClosed(ll, last, path);
      } else {
        ReverseStep(ll, last, path);
        path := path + [j];
        PathFits(ll[j := i], last, path);
        NextIsFresh(ll[j := i], last, path);
      }
      i := j;
      j := tmp;
      if i == origPtr { break; }
    }
  }

  // ---------- Which symbol owns a row ----------

  /** BZ2_indexIntoF: binary search for the bucket holding indx. */
  method IndexIntoF(indx: nat, cftab: array<nat>) returns (nb: nat)
    requires cftab.Length >= 257 && cftab[0] <= indx < cftab[256]
    ensures nb < 256 && cftab[nb] <= indx < cftab[nb + 1]
  {
    nb := 0;
    var na := 256;
    while true
      invariant nb < na <= 256 && na - nb > 1 && cftab[nb] <= indx < cftab[na]
      decreases na - nb
    {
      var mid := (nb + na) / 2;
      if indx >= cftab[mid] { nb := mid; } else { na := mid; }
      if na - nb == 1 { break; }
    }
  }

  /** The bucket that holds row k is the byte in its first column. */
  lemma BucketIsFirstColumn(last: Block, k: nat, c: nat)
    requires k < |last| && c < 256
    requires CountBelow(last, c, |last|) <= k < CountBelow(last, c + 1, |last|)
    ensures (OrderIsPermutation(last); FirstColumn(last, k) == c)
  {
    OrderIsPermutation(last);
    PositionFindsRow(last, 256, k);
    var i := StableOrder(last, 256)[k];
    var f := last[i];
    OrderCounts(last, f + 1, |last|);
    PositionsGrow(last, f, i, |last|);
    if c < f {
      CountBelowMono(last, c + 1, f, |last|);
    } else if f < c {
      CountBelowMono(last, f + 1, c, |last|);
    }
  }
}
