/** The bucket header bits of fallbackSort: a packed bit table, single-bit
    updates, and scans that skip whole words (blocksort.c, 205-209 and 275-292). */
module HeaderBits {

  /** 1 << (z & 31). */
  function Mask(p: nat): bv32
    requires p < 32
  {
    (1 as bv32) << p
  }

  predicate IsSet(bh: seq<bv32>, z: nat)
    requires z / 32 < |bh|
  {
    TestBit(bh[z / 32], Mask(z % 32))
  }

  /** The table holds these bits. */
  ghost predicate Shows(bh: seq<bv32>, bits: seq<bool>) {
    && |bits| <= 32 * |bh|
    && (forall k :: 0 <= k < |bits| ==> IsSet(bh, k) == bits[k])
  }

  lemma MasksApart(p: nat, q: nat)
    requires p < 32 && q < 32
    ensures (And(Mask(p), Mask(q)) != 0) == (p == q)
  {
  }

  function And(w: bv32, k: bv32): bv32 { w & k }

  predicate TestBit(w: bv32, k: bv32) { And(w, k) != 0 }

  function WithBit(w: bv32, m: bv32): bv32 { w | m }

  function WithoutBit(w: bv32, m: bv32): bv32 { w & !m }

  lemma WithApart(w: bv32, m: bv32, k: bv32)
    requires And(m, k) == 0
    ensures And(WithBit(w, m), k) == And(w, k)
  {
  }

  lemma WithoutApart(w: bv32, m: bv32, k: bv32)
    requires And(m, k) == 0
    ensures And(WithoutBit(w, m), k) == And(w, k)
  {
  }

  lemma UpdateApart(w: bv32, m: bv32, k: bv32)
    requires And(m, k) == 0
    ensures TestBit(WithBit(w, m), k) == TestBit(w, k) == TestBit(WithoutBit(w, m), k)
  {
    hide And, WithBit, WithoutBit;
    WithApart(w, m, k);
    WithoutApart(w, m, k);
  }

  lemma UpdateSame(w: bv32, m: bv32)
    requires And(m, m) != 0
    ensures TestBit(WithBit(w, m), m) && !TestBit(WithoutBit(w, m), m)
  {
  }

  lemma UpdateOne(w: bv32, p: nat, q: nat)
    requires p < 32 && q < 32
    ensures TestBit(WithBit(w, Mask(p)), Mask(q)) == (p == q || TestBit(w, Mask(q)))
    ensures TestBit(WithoutBit(w, Mask(p)), Mask(q)) == (p != q && TestBit(w, Mask(q)))
  {
    hide Mask, And, TestBit, WithBit, WithoutBit;
    MasksApart(p, q);
    if p == q {
      UpdateSame(w, Mask(p));
    } else {
      UpdateApart(w, Mask(p), Mask(q));
    }
  }

  /** SET_BH. */
  method SetBH(bhtab: array<bv32>, z: nat, ghost bits: seq<bool>)
    requires z < |bits| && Shows(bhtab[..], bits)
    modifies bhtab
    ensures Shows(bhtab[..], bits[z := true])
  {
    hide Mask, And, TestBit, WithBit, WithoutBit;
    ghost var w := bhtab[z / 32];
    bhtab[z / 32] := WithBit(bhtab[z / 32], Mask(z % 32));
    forall k | 0 <= k < |bits| ensures IsSet(bhtab[..], k) == bits[z := true][k] {
      UpdateOne(w, z % 32, k % 32);
    }
  }

  /** CLEAR_BH. */
  method ClearBH(bhtab: array<bv32>, z: nat, ghost bits: seq<bool>)
    requires z < |bits| && Shows(bhtab[..], bits)
    modifies bhtab
    ensures Shows(bhtab[..], bits[z := false])
  {
    hide Mask, And, TestBit, WithBit, WithoutBit;
    ghost var w := bhtab[z / 32];
    bhtab[z / 32] := WithoutBit(bhtab[z / 32], Mask(z % 32));
    forall k | 0 <= k < |bits| ensures IsSet(bhtab[..], k) == bits[z := false][k] {
      UpdateOne(w, z % 32, k % 32);
    }
  }

  lemma WordBits(bh: seq<bv32>, k: nat, j: nat)
    requires k % 32 == 0 && k <= j < k + 32 && k / 32 < |bh|
    ensures j / 32 < |bh|
    ensures bh[k / 32] == 0xffffffff ==> IsSet(bh, j)
    ensures bh[k / 32] == 0 ==> !IsSet(bh, j)
  {
    hide Mask, And, TestBit;
    assert j / 32 == k / 32;
    MasksApart(j % 32, j % 32);
    WholeWord(Mask(j % 32));
  }

  lemma WholeWord(m: bv32)
    ensures And(m, m) != 0 ==> TestBit(0xffffffff, m)
    ensures !TestBit(0, m)
  {
  }

  /** First clear bit at or after k0; a clear bit at `limit` stops every scan. */
  method NextClear(bhtab: array<bv32>, k0: nat, ghost bits: seq<bool>, ghost limit: nat) returns (k: nat)
    requires Shows(bhtab[..], bits) && k0 <= limit < |bits| && !bits[limit]
    ensures k0 <= k <= limit && !bits[k] && forall j :: k0 <= j < k ==> bits[j]
  {
    hide IsSet;
    k := k0;
    while IsSet(bhtab[..], k) && k % 32 != 0
      invariant k0 <= k <= limit && forall j :: k0 <= j < k ==> bits[j]
      decreases limit - k
    {
      k := k + 1;
    }
    if IsSet(bhtab[..], k) {
      while bhtab[k / 32] == 0xffffffff
        invariant k0 <= k <= limit && k % 32 == 0 && forall j :: k0 <= j < k ==> bits[j]
        decreases limit - k
      {
        forall j | k <= j < k + 32 && j < |bits| ensures bits[j] {
          WordBits(bhtab[..], k, j);
        }
        k := k + 32;
      }
      while IsSet(bhtab[..], k)
        invariant k0 <= k <= limit && forall j :: k0 <= j < k ==> bits[j]
        decreases limit - k
      {
        k := k + 1;
      }
    }
  }

  /** First set bit at or after k0; a set bit at `limit` stops every scan. */
  method NextSet(bhtab: array<bv32>, k0: nat, ghost bits: seq<bool>, ghost limit: nat) returns (k: nat)
    requires Shows(bhtab[..], bits) && k0 <= limit < |bits| && bits[limit]
    ensures k0 <= k <= limit && bits[k] && forall j :: k0 <= j < k ==> !bits[j]
  {
    hide IsSet;
    k := k0;
    while !IsSet(bhtab[..], k) && k % 32 != 0
      invariant k0 <= k <= limit && forall j :: k0 <= j < k ==> !bits[j]
      decreases limit - k
    {
      k := k + 1;
    }
    if !IsSet(bhtab[..], k) {
      while bhtab[k / 32] == 0
        invariant k0 <= k <= limit && k % 32 == 0 && forall j :: k0 <= j < k ==> !bits[j]
        decreases limit - k
      {
        forall j | k <= j < k + 32 && j < |bits| ensures !bits[j] {
          WordBits(bhtab[..], k, j);
        }
        k := k + 32;
      }
      while !IsSet(bhtab[..], k)
        invariant k0 <= k <= limit && forall j :: k0 <= j < k ==> !bits[j]
        decreases limit - k
      {
        k := k + 1;
      }
    }
  }
}
