/** Does the choice of sorting algorithm show in the stream? A comment in
    blocksort.c (1059-1061) says it does not. The last column never depends on
    it, but the row of rotation 0 does as soon as the block is one repeated
    byte: mainSort leaves it first, fallbackSort last. */
module SortTies {
  import opened Arith
  import opened Bits
  import opened Rotations
  import opened MoveToFront
  import opened RunLength
  import opened BlockImage
  import BigBuckets
  import CompressBlock
  import FallbackSort
  import MainSort

  /** origPtr: the row of rotation 0. */
  ghost function OrigPtr(b: Block, f: seq<nat>): (p: nat)
    requires SortsRotations(b, f)
    ensures p < |f| && f[p] == 0
  {
    Onto(f, 0);
    IndexOf(f, 0)
  }

  /** No other rotation of the block equals the block. */
  ghost predicate Aperiodic(b: Block)
    requires b != []
  {
    forall i :: 0 < i < |b| ==> Key(b, i, |b|) != Key(b, 0, |b|)
  }

  /** On such a block the two sorts agree about origPtr. */
  lemma AperiodicFixesRow(b: Block, f: seq<nat>, g: seq<nat>)
    requires SortsRotations(b, f) && SortsRotations(b, g) && Aperiodic(b)
    ensures OrigPtr(b, g) == OrigPtr(b, f)
  {
    hide Key;
    var p := OrigPtr(b, f);
    SortedListsAgree(b, f, g, |b|, p);
    assert g[p] == 0;
  }

  /** On a block of one byte they do not: run on the same block, with whatever
      budget, the main sort puts rotation 0 first and the fallback sort last. */
  method SortBothWays(block: seq<Byte>, budget: nat) returns (byMain: seq<nat>, byFallback: seq<nat>)
    requires Constant(block) && MainSort.OVERSHOOT < |block| <= 900000
    ensures SortsRotations(block, byMain) && SortsRotations(block, byFallback)
    ensures OrigPtr(block, byMain) == 0 && OrigPtr(block, byFallback) == |block| - 1
  {
    hide SortsRotations, Constant;
    var done;
    done, byMain := CompressBlock.MainOrder(block, budget);
    byFallback := CompressBlock.FallbackOrder(block);
    FirstRow(block, byMain);
    LastRow(block, byFallback);
  }

  lemma FirstRow(b: Block, f: seq<nat>)
    requires SortsRotations(b, f) && BigBuckets.InOrder(f)
    ensures OrigPtr(b, f) == 0
  {
  }

  lemma LastRow(b: Block, f: seq<nat>)
    requires SortsRotations(b, f) && FallbackSort.Reversal(f)
    ensures OrigPtr(b, f) == |b| - 1
  {
  }

  /** The block head carries origPtr, so the two images differ. */
  lemma HeadsDiffer(crc: bv32, p: nat, q: nat)
    requires p < q < 0x100_0000
    ensures HeadBits(crc, p) != HeadBits(crc, q)
  {
    hide ToBits, PutWord;
    Pow2Values();
    Pow2Add(8, 16);
    FromToBits(p, 24);
    FromToBits(q, 24);
    var head := PutBytes(BLOCK_MAGIC) + PutWord(Word(crc)) + [false];
    assert (head + ToBits(p, 24))[|head|..] == ToBits(p, 24);
    assert (head + ToBits(q, 24))[|head|..] == ToBits(q, 24);
  }

  // ---------- The front end produces such blocks ----------

  function FullRuns(n: nat): (r: seq<Run>)
    ensures |r| == n && forall i :: 0 <= i < n ==> r[i] == Run(251, 255)
  {
    seq(n, _ => Run(251, 255))
  }

  /** The input 251, 255 * n times over: its runs are full, and the count byte of
      each is 251 too. From n = 2000 on both sorts are candidates for the block. */
  lemma {:induction false} ConstantPacking(n: nat)
    ensures Maximal(FullRuns(n)) && Unpacked(FullRuns(n)) == Rep(251, 255 * n)
    ensures |Packed(FullRuns(n))| == 5 * n && Constant(Packed(FullRuns(n)))
    ensures Packed(FullRuns(n)) == Rep(251, 5 * n)
  {
    if n > 0 {
      ConstantPacking(n - 1);
      assert FullRuns(n)[1..] == FullRuns(n - 1);
      assert RunBytes(Run(251, 255)) == Rep(251, 5);
      assert Rep(251, 5) + Rep(251, 5 * (n - 1)) == Rep(251, 5 * n);
      assert Rep(251, 255) + Rep(251, 255 * (n - 1)) == Rep(251, 255 * n);
    }
  }
}
