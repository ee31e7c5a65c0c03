/** generateMTFValues and makeMaps_e (compress.c), with the two views of arr1:
    32-bit sort pointers being read and 16-bit symbols being written. */
module GenerateMtf {
  import opened Arith
  import opened Rotations
  import opened MoveToFront

  // ---------- Bytes in use ----------

  /** The bytes below k in use, in increasing order. */
  function Used(inUse: seq<bool>, k: nat): (r: seq<nat>)
    requires k <= |inUse|
    ensures |r| <= k
  {
    if k == 0 then []
    else if inUse[k - 1] then Used(inUse, k - 1) + [k - 1]
    else Used(inUse, k - 1)
  }

  /** The sequence number of a byte in use. */
  function SeqNumber(inUse: seq<bool>, v: nat): nat
    requires v < |inUse|
  {
    |Used(inUse, v)|
  }

  lemma {:induction false} UsedAt(inUse: seq<bool>, v: nat, k: nat)
    requires v < k <= |inUse| && inUse[v]
    ensures SeqNumber(inUse, v) < |Used(inUse, k)| && Used(inUse, k)[SeqNumber(inUse, v)] == v
    decreases k
  {
    if v < k - 1 {
      UsedAt(inUse, v, k - 1);
    }
  }

  lemma {:induction false} UsedInUse(inUse: seq<bool>, k: nat, i: nat)
    requires k <= |inUse| && i < |Used(inUse, k)|
    ensures Used(inUse, k)[i] < k && inUse[Used(inUse, k)[i]] && SeqNumber(inUse, Used(inUse, k)[i]) == i
  {
    if i < |Used(inUse, k - 1)| {
      UsedInUse(inUse, k - 1, i);
    }
  }

  method MakeMaps(inUse: seq<bool>, unseqToSeq: array<nat>) returns (nInUse: nat)
    requires |inUse| == unseqToSeq.Length == 256
    modifies unseqToSeq
    ensures nInUse == |Used(inUse, 256)|
    ensures forall v :: 0 <= v < 256 && inUse[v] ==> unseqToSeq[v] == SeqNumber(inUse, v)
  {
    nInUse := 0;
    for i := 0 to 256
      invariant nInUse == |Used(inUse, i)|
      invariant forall v :: 0 <= v < i && inUse[v] ==> unseqToSeq[v] == SeqNumber(inUse, v)
    {
      if inUse[i] {
        unseqToSeq[i] := nInUse;
        nInUse := nInUse + 1;
      }
    }
  }

  // ---------- What is to be coded ----------

  /** The block's bytes are all marked as used. */
  ghost predicate Covers(inUse: seq<bool>, b: Block) {
    |inUse| == 256 && forall i :: 0 <= i < |b| ==> inUse[b[i]]
  }

  /** Exactly the block's bytes are marked as used. */
  ghost predicate Marks(inUse: seq<bool>, b: Block) {
    |inUse| == 256 && forall v :: 0 <= v < 256 ==> (inUse[v] <==> v in b)
  }

  lemma MarksCover(inUse: seq<bool>, b: Block)
    requires Marks(inUse, b)
    ensures Covers(inUse, b)
  {
  }

  lemma {:induction false} UsedSoFar(inUse: seq<bool>, b: Block, k: nat)
    requires Marks(inUse, b) && k <= 256
    ensures |Used(inUse, k)| == |set v | v in b && v < k|
  {
    var now := set v | v in b && v < k;
    if k == 0 {
      assert now == {};
    } else {
      var before := set v | v in b && v < k - 1;
      UsedSoFar(inUse, b, k - 1);
      assert now == if inUse[k - 1] then before + {k - 1} else before;
    }
  }

  lemma UsedAreDistinct(inUse: seq<bool>, b: Block)
    requires Marks(inUse, b)
    ensures |Used(inUse, 256)| == |set v | v in b|
  {
    UsedSoFar(inUse, b, 256);
    assert (set v | v in b) == set v | v in b && v < 256;
  }

  /** The last column of the sorted block, in sequence numbers. */
  function Column(inUse: seq<bool>, last: Block): (r: seq<nat>)
    requires |inUse| == 256
    ensures |r| == |last|
  {
    seq(|last|, i requires 0 <= i < |last| => SeqNumber(inUse, last[i]))
  }

  lemma ColumnInList(inUse: seq<bool>, last: Block)
    requires Covers(inUse, last)
    ensures AllIn(Column(inUse, last), Iota(|Used(inUse, 256)|))
  {
    var n := |Used(inUse, 256)|;
    forall v | v in Column(inUse, last) ensures v in Iota(n) {
      var i :| 0 <= i < |last| && Column(inUse, last)[i] == v;
      UsedAt(inUse, last[i], 256);
      assert Iota(n)[v] == v;
    }
  }

  lemma LastColumnCovered(inUse: seq<bool>, b: Block, f: seq<nat>)
    requires b != [] && Covers(inUse, b)
    ensures Covers(inUse, LastColumn(b, f))
  {
  }

  // ---------- Two views of one array ----------

  /** ptr[i]: two 16-bit cells read as one 32-bit pointer. */
  function PtrAt(arr1: seq<nat>, i: nat): nat
    requires 2 * i + 1 < |arr1|
  {
    arr1[2 * i] + 65536 * arr1[2 * i + 1]
  }

  ghost predicate PointersFrom(arr1: seq<nat>, f: seq<nat>, i: nat) {
    2 * |f| <= |arr1| && forall k :: i <= k < |f| ==> PtrAt(arr1, k) == f[k]
  }

  /** Writing 16-bit cells at or below i spares every pointer beyond i. */
  lemma PointersSurvive(a: seq<nat>, c: seq<nat>, f: seq<nat>, i: nat)
    requires |a| == |c| && PointersFrom(a, f, i)
    requires forall x :: i < x < |a| ==> c[x] == a[x]
    ensures PointersFrom(c, f, i + 1)
  {
  }

  ghost predicate Tally(freq: seq<nat>, v: seq<nat>, n: nat) {
    n <= |freq| && forall s :: 0 <= s < n ==> freq[s] == multiset(v)[s]
  }

  /** Append one symbol and count it. */
  method Put(mtfv: array<nat>, mtfFreq: array<nat>, wr: nat, s: nat, ghost n: nat)
    requires mtfv != mtfFreq && wr < mtfv.Length && s < n && Tally(mtfFreq[..], mtfv[..wr], n)
    modifies mtfv, mtfFreq
    ensures mtfv[..wr + 1] == old(mtfv[..wr]) + [s] && mtfv[wr + 1..] == old(mtfv[wr + 1..])
    ensures Tally(mtfFreq[..], mtfv[..wr + 1], n)
  {
    ghost var done := mtfv[..wr];
    mtfv[wr] := s;
    mtfFreq[s] := mtfFreq[s] + 1;
    assert mtfv[..wr + 1] == done + [s];
  }

  /** Flush a pending run of zPend > 0 zeros as RUNA/RUNB digits. */
  method PutRun(mtfv: array<nat>, mtfFreq: array<nat>, wr0: nat, zPend0: nat, ghost n: nat) returns (wr: nat)
    requires mtfv != mtfFreq && 0 < zPend0 && wr0 + zPend0 <= mtfv.Length && 2 <= n
    requires Tally(mtfFreq[..], mtfv[..wr0], n)
    modifies mtfv, mtfFreq
    ensures wr == wr0 + |RunCode(zPend0)| <= mtfv.Length
    ensures mtfv[..wr] == old(mtfv[..wr0]) + RunCode(zPend0) && mtfv[wr..] == old(mtfv[wr..])
    ensures Tally(mtfFreq[..], mtfv[..wr], n)
  {
    hide Tally, RunCode;
    ghost var before, target := mtfv[..], mtfv[..wr0] + RunCode(zPend0);
    wr := wr0;
    var zPend: nat := zPend0 - 1;
    while true
      invariant wr0 <= wr && wr + zPend + 1 <= wr0 + zPend0
      invariant mtfv[..wr] + RunCode(zPend + 1) == target
      invariant mtfv[wr..] == before[wr..]
      invariant Tally(mtfFreq[..], mtfv[..wr], n)
      decreases zPend
    {
      ghost var done := mtfv[..wr];
      RunCodeStep(zPend);
      Put(mtfv, mtfFreq, wr, if zPend % 2 == 1 then RUNB else RUNA, n);
      wr := wr + 1;
      assert mtfv[..wr] + RunCode(zPend / 2) == done + RunCode(zPend + 1);
      assert mtfv[wr..] == before[wr..];
      if zPend < 2 { break; }
      zPend := (zPend - 2) / 2;
    }
    assert mtfv[..wr] + RunCode(0) == mtfv[..wr];
  }

  lemma RunCodeStep(z: nat)
    ensures RunCode(z + 1) == [z % 2] + RunCode(z / 2) && RunCode(0) == []
  {
  }

  /** The in-place move to front: one pass, carrying the previous entry. */
  method MoveUp(yy: array<nat>, ll: nat, ghost n: nat) returns (j: nat)
    requires 2 <= n <= yy.Length && Distinct(yy[..n]) && ll in yy[..n] && yy[0] != ll
    modifies yy
    ensures 1 <= j < n && j == IndexOf(old(yy[..n]), ll)
    ensures yy[..n] == MoveFront(old(yy[..n]), j)
  {
    ghost var list: seq<nat> := yy[..n];
    ghost var k := IndexOf(list, ll);
    var rtmp := yy[1];
    yy[1] := yy[0];
    j := 1;
    while ll != rtmp
      invariant 1 <= j <= k && rtmp == list[j]
      invariant yy[0] == list[0]
      invariant forall i :: 1 <= i <= j ==> yy[i] == list[i - 1]
      invariant forall i :: j < i < n ==> yy[i] == list[i]
      decreases n - j
    {
      j := j + 1;
      var rtmp2 := rtmp;
      rtmp := yy[j];
      yy[j] := rtmp2;
    }
    assert j == k;
    yy[0] := rtmp;
  }

  /** What has been written, followed by what the rest still has to write. */
  ghost predicate Progress(done: seq<nat>, list: seq<nat>, rest: seq<nat>, z: nat, all: seq<nat>) {
    && list != [] && Distinct(list) && AllIn(rest, list)
    && done + Encode(list, rest, z) == all
  }

  lemma ProgressRun(done: seq<nat>, list: seq<nat>, rest: seq<nat>, z: nat, all: seq<nat>)
    requires Progress(done, list, rest, z, all) && rest != [] && list[0] == rest[0]
    ensures Progress(done, list, rest[1..], z + 1, all)
  {
  }

  lemma ProgressMove(done: seq<nat>, list: seq<nat>, rest: seq<nat>, z: nat, all: seq<nat>)
    requires Progress(done, list, rest, z, all) && rest != [] && list[0] != rest[0]
    ensures rest[0] in list
    ensures var k := IndexOf(list, rest[0]);
            Progress(done + RunCode(z) + [k + 1], MoveFront(list, k), rest[1..], 0, all)
  {
    hide RunCode, IndexOf, MoveFront, Encode, Distinct;
    EncodeMove(list, rest, z);
    var k := IndexOf(list, rest[0]);
    var coded := Encode(MoveFront(list, k), rest[1..], 0);
    assert done + RunCode(z) + [k + 1] + coded == done + (RunCode(z) + ([k + 1] + coded));
  }

  lemma ProgressEnd(done: seq<nat>, list: seq<nat>, z: nat, all: seq<nat>)
    requires Progress(done, list, [], z, all)
    ensures done + RunCode(z) == all
  {
  }

  /** The symbol string of a block: its coded last column, then EOB. */
  function Symbols(inUse: seq<bool>, last: Block): (r: seq<nat>)
    requires Covers(inUse, last) && last != []
    ensures 0 < |r| <= |last| + 1
  {
    ColumnInList(inUse, last);
    NonEmptyUse(inUse, last);
    var n := |Used(inUse, 256)|;
    Encode(Iota(n), Column(inUse, last), 0) + [n + 1]
  }

  lemma NonEmptyUse(inUse: seq<bool>, last: Block)
    requires Covers(inUse, last) && last != []
    ensures 1 <= |Used(inUse, 256)| <= 256
  {
    UsedAt(inUse, last[0], 256);
  }

  /** The loop body for a symbol that is not in front: flush, then move. */
  method CodeMove(arr1: array<nat>, mtfFreq: array<nat>, yy: array<nat>, wr0: nat, zPend: nat, ll: nat, n: nat)
    returns (wr: nat)
    requires arr1 != mtfFreq && arr1 != yy && mtfFreq != yy
    requires 2 <= n <= 256 && n <= yy.Length && Distinct(yy[..n]) && ll in yy[..n] && yy[0] != ll
    requires wr0 + zPend < arr1.Length && Tally(mtfFreq[..], arr1[..wr0], n + 2)
    modifies arr1, mtfFreq, yy
    ensures var list := old(yy[..n]);
            var k := IndexOf(list, ll);
            && yy[..n] == MoveFront(list, k)
            && wr == wr0 + |RunCode(zPend)| + 1 <= arr1.Length
            && arr1[..wr] == old(arr1[..wr0]) + RunCode(zPend) + [k + 1]
            && arr1[wr..] == old(arr1[wr..])
    ensures Tally(mtfFreq[..], arr1[..wr], n + 2)
  {
    hide Tally, RunCode, IndexOf, MoveFront, Distinct;
    wr := wr0;
    RunCodeStep(0);
    ghost var cells := arr1[..];
    if zPend > 0 {
      wr := PutRun(arr1, mtfFreq, wr, zPend, n + 2);
    }
    assert arr1[..wr] == cells[..wr0] + RunCode(zPend);
    var j := MoveUp(yy, ll, n);
    assert arr1[wr..] == cells[wr..];
    Put(arr1, mtfFreq, wr, j + 1, n + 2);
    wr := wr + 1;
    assert arr1[wr..] == cells[wr..];
  }

  /** The state of the coding loop before byte i of the column. */
  ghost predicate Coding(arr1: seq<nat>, freq: seq<nat>, yy: seq<nat>, f: seq<nat>, column: seq<nat>,
                         all: seq<nat>, i: nat, wr: nat, z: nat, n: nat)
  {
    && i <= |f| == |column| && wr + z <= i && 2 * |f| <= |arr1| && |yy| == 256 && n <= 256
    && PointersFrom(arr1, f, i)
    && Progress(arr1[..wr], yy[..n], column[i..], z, all)
    && Tally(freq, arr1[..wr], n + 2)
  }

  lemma CodingFacts(arr1: seq<nat>, freq: seq<nat>, yy: seq<nat>, f: seq<nat>, column: seq<nat>,
                    all: seq<nat>, i: nat, wr: nat, z: nat, n: nat)
    requires Coding(arr1, freq, yy, f, column, all, i, wr, z, n) && i < |f|
    ensures 0 < n && Distinct(yy[..n]) && column[i] in yy[..n] && Tally(freq, arr1[..wr], n + 2)
    ensures 2 * i + 1 < |arr1| && PtrAt(arr1, i) == f[i] && wr + z < |arr1|
  {
    assert column[i..][0] == column[i];
  }

  lemma CodingRun(arr1: seq<nat>, freq: seq<nat>, yy: seq<nat>, f: seq<nat>, column: seq<nat>,
                  all: seq<nat>, i: nat, wr: nat, z: nat, n: nat)
    requires Coding(arr1, freq, yy, f, column, all, i, wr, z, n) && i < |f| && yy[0] == column[i]
    ensures Coding(arr1, freq, yy, f, column, all, i + 1, wr, z + 1, n)
  {
    hide Tally, Encode;
    assert column[i..][0] == column[i] && column[i..][1..] == column[i + 1..];
    ProgressRun(arr1[..wr], yy[..n], column[i..], z, all);
  }

  lemma CodingMove(arr1: seq<nat>, freq: seq<nat>, yy: seq<nat>, f: seq<nat>, column: seq<nat>,
                   all: seq<nat>, i: nat, wr: nat, z: nat, n: nat,
                   arr1': seq<nat>, freq': seq<nat>, yy': seq<nat>, wr': nat)
    requires Coding(arr1, freq, yy, f, column, all, i, wr, z, n) && i < |f| && 0 < n && yy[0] != column[i]
    requires column[i] in yy[..n] && |arr1'| == |arr1| && |yy'| == 256
    requires var k := IndexOf(yy[..n], column[i]);
             && yy'[..n] == MoveFront(yy[..n], k)
             && wr' == wr + |RunCode(z)| + 1 <= |arr1|
             && arr1'[..wr'] == arr1[..wr] + RunCode(z) + [k + 1]
             && arr1'[wr'..] == arr1[wr'..]
             && Tally(freq', arr1'[..wr'], n + 2)
    ensures Coding(arr1', freq', yy', f, column, all, i + 1, wr', 0, n)
  {
    hide Tally, Encode, RunCode, IndexOf, MoveFront, Distinct;
    assert column[i..][0] == column[i] && column[i..][1..] == column[i + 1..];
    ProgressMove(arr1[..wr], yy[..n], column[i..], z, all);
    RunCodeFits(z);
    assert forall x :: i < x < |arr1| ==> arr1'[x] == arr1'[wr'..][x - wr'] == arr1[wr'..][x - wr'] == arr1[x];
    PointersSurvive(arr1, arr1', f, i);
  }

  /** One turn of the coding loop. */
  method CodeByte(arr1: array<nat>, block: Block, nblock: nat, unseqToSeq: array<nat>, mtfFreq: array<nat>,
                  yy: array<nat>, i: nat, wr0: nat, zPend0: nat, n: nat,
                  ghost f: seq<nat>, ghost column: seq<nat>, ghost all: seq<nat>)
    returns (wr: nat, zPend: nat)
    requires arr1 != mtfFreq && arr1 != yy && mtfFreq != yy && unseqToSeq !in {arr1, mtfFreq, yy}
    requires i < nblock == |block| == |f| && f[i] < nblock && unseqToSeq.Length == 256
    requires Coding(arr1[..], mtfFreq[..], yy[..], f, column, all, i, wr0, zPend0, n)
    requires unseqToSeq[LastColumn(block, f)[i]] == column[i]
    modifies arr1, mtfFreq, yy
    ensures Coding(arr1[..], mtfFreq[..], yy[..], f, column, all, i + 1, wr, zPend, n)
  {
    hide Coding, Tally, RunCode, IndexOf, MoveFront, Distinct;
    ghost var cells, freq, list := arr1[..], mtfFreq[..], yy[..];
    CodingFacts(cells, freq, list, f, column, all, i, wr0, zPend0, n);
    var p: int := PtrAt(arr1[..], i);
    var j := if p - 1 < 0 then p - 1 + nblock else p - 1;
    PreviousByte(block, f, i, j);
    var ll := unseqToSeq[block[j]];
    CodingSizes(cells, freq, list, f, column, all, i, wr0, zPend0, n);
    if yy[0] == ll {
      wr, zPend := wr0, zPend0 + 1;
      CodingRun(cells, freq, list, f, column, all, i, wr0, zPend0, n);
    } else {
      TwoInList(yy[..n], ll);
      assert yy[..n] == list[..n] && arr1[..wr0] == cells[..wr0];
      wr := CodeMove(arr1, mtfFreq, yy, wr0, zPend0, ll, n);
      zPend := 0;
      CodingMove(cells, freq, list, f, column, all, i, wr0, zPend0, n, arr1[..], mtfFreq[..], yy[..], wr);
    }
  }

  lemma CodingSizes(arr1: seq<nat>, freq: seq<nat>, yy: seq<nat>, f: seq<nat>, column: seq<nat>,
                    all: seq<nat>, i: nat, wr: nat, z: nat, n: nat)
    requires Coding(arr1, freq, yy, f, column, all, i, wr, z, n)
    ensures i <= |f| && wr + z <= i && 2 * |f| <= |arr1| && |yy| == 256 && n <= 256
  {
  }

  /** Before the coding loop: empty counts, the identity list, nothing written. */
  method StartCoding(arr1: array<nat>, mtfFreq: array<nat>, nInUse: nat,
                     ghost f: seq<nat>, ghost column: seq<nat>)
    returns (yy: array<nat>)
    requires arr1 != mtfFreq && mtfFreq.Length == 258 && 0 < nInUse <= 256 && |f| == |column|
    requires PointersFrom(arr1[..], f, 0) && AllIn(column, Iota(nInUse))
    modifies mtfFreq
    ensures fresh(yy) && yy.Length == 256
    ensures Coding(arr1[..], mtfFreq[..], yy[..], f, column, Encode(Iota(nInUse), column, 0), 0, 0, 0, nInUse)
  {
    hide Encode;
    var eob := nInUse + 1;
    for i := 0 to eob + 1
      invariant forall s :: 0 <= s < i ==> mtfFreq[s] == 0
    {
      mtfFreq[i] := 0;
    }
    EmptyTally(mtfFreq[..], nInUse + 2);
    ghost var freq := mtfFreq[..];
    yy := new nat[256];
    for i := 0 to nInUse
      invariant forall s :: 0 <= s < i ==> yy[s] == s
      invariant mtfFreq[..] == freq
    {
      yy[i] := i;
    }
    assert yy[..nInUse] == Iota(nInUse) && arr1[..0] == [] && column[0..] == column;
    ProgressStart(Iota(nInUse), column, Encode(Iota(nInUse), column, 0));
  }

  /** After the loop: flush the last run and add the end-of-block symbol. */
  method FinishCoding(arr1: array<nat>, mtfFreq: array<nat>, wr0: nat, zPend: nat, nInUse: nat,
                      ghost yy: seq<nat>, ghost f: seq<nat>, ghost column: seq<nat>, ghost all: seq<nat>)
    returns (wr: nat)
    requires arr1 != mtfFreq && |f| > 0
    requires Coding(arr1[..], mtfFreq[..], yy, f, column, all, |f|, wr0, zPend, nInUse)
    modifies arr1, mtfFreq
    ensures wr <= |f| + 1 && wr <= arr1.Length && arr1[..wr] == all + [nInUse + 1]
    ensures Tally(mtfFreq[..], arr1[..wr], nInUse + 2)
  {
    hide Tally, Encode, RunCode, Distinct, PointersFrom;
    ghost var cells := arr1[..];
    assert column[|f|..] == [] && arr1[..wr0] == cells[..wr0];
    ProgressEnd(arr1[..wr0], yy[..nInUse], zPend, all);
    RunCodeStep(0);
    RunCodeFits(zPend);
    wr := wr0;
    if zPend > 0 {
      wr := PutRun(arr1, mtfFreq, wr, zPend, nInUse + 2);
    }
    assert arr1[..wr] == all;
    Put(arr1, mtfFreq, wr, nInUse + 1, nInUse + 2);
    wr := wr + 1;
  }

  /** generateMTFValues. `f` is the sort order found in ptr; the symbols end
      up in the 16-bit view of the same cells, never on an unread pointer. */
  method GenerateMTFValues(arr1: array<nat>, block: Block, nblock: nat, inUse: seq<bool>,
                           unseqToSeq: array<nat>, mtfFreq: array<nat>, ghost f: seq<nat>)
    returns (nInUse: nat, nMTF: nat)
    requires arr1 != unseqToSeq && arr1 != mtfFreq && unseqToSeq != mtfFreq
    requires 0 < nblock == |block| == |f| && Permutation(f) && PointersFrom(arr1[..], f, 0)
    requires Covers(inUse, block) && unseqToSeq.Length == 256 && mtfFreq.Length == 258
    modifies arr1, unseqToSeq, mtfFreq
    ensures nInUse == |Used(inUse, 256)| && nMTF <= nblock + 1
    ensures Covers(inUse, LastColumn(block, f))
    ensures nMTF <= arr1.Length && arr1[..nMTF] == Symbols(inUse, LastColumn(block, f))
    ensures Tally(mtfFreq[..], arr1[..nMTF], nInUse + 2)
  {
    hide Tally, Used, Encode, Coding;
    ghost var last := LastColumn(block, f);
    LastColumnCovered(inUse, block, f);
    ColumnInList(inUse, last);
    NonEmptyUse(inUse, last);
    ghost var column := Column(inUse, last);
    nInUse := MakeMaps(inUse, unseqToSeq);
    ghost var maps := unseqToSeq[..];
    ghost var all := Encode(Iota(nInUse), column, 0);
    var yy := StartCoding(arr1, mtfFreq, nInUse, f, column);
    var wr, zPend := 0, 0;
    for i := 0 to nblock
      invariant Coding(arr1[..], mtfFreq[..], yy[..], f, column, all, i, wr, zPend, nInUse)
      invariant unseqToSeq[..] == maps
    {
      assert unseqToSeq[last[i]] == maps[last[i]];
      wr, zPend := CodeByte(arr1, block, nblock, unseqToSeq, mtfFreq, yy, i, wr, zPend, nInUse, f, column, all);
    }
    nMTF := FinishCoding(arr1, mtfFreq, wr, zPend, nInUse, yy[..], f, column, all);
  }

  lemma EmptyTally(freq: seq<nat>, n: nat)
    requires n <= |freq| && forall s :: 0 <= s < n ==> freq[s] == 0
    ensures Tally(freq, [], n)
  {
  }

  lemma ProgressStart(list: seq<nat>, column: seq<nat>, all: seq<nat>)
    requires list != [] && Distinct(list) && AllIn(column, list)
    requires all == Encode(list, column, 0)
    ensures Progress([], list, column, 0, all)
  {
  }

  lemma RunCodeFits(z: nat)
    ensures |RunCode(z)| <= z
  {
  }

  lemma TwoInList(list: seq<nat>, v: nat)
    requires v in list && list[0] != v
    ensures |list| >= 2
  {
  }

  /** block[ptr[i] - 1], wrapping at the front, is the last byte of row i. */
  lemma PreviousByte(b: Block, f: seq<nat>, i: nat, j: int)
    requires i < |f| == |b| && f[i] < |b|
    requires j == if f[i] == 0 then |b| - 1 else f[i] - 1
    ensures 0 <= j < |b| && b[j] == LastColumn(b, f)[i]
  {
    var n := |b|;
    if f[i] == 0 {
      DivUnique(n - 1, n, 0, n - 1);
    } else {
      DivUnique(f[i] + n - 1, n, 1, f[i] - 1);
    }
  }
}
