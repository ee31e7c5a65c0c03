/** Canonical codes from code lengths, and the tables that decode them
    (BZ2_hbAssignCodes and BZ2_hbCreateDecodeTables in huffman.c). */
module CanonicalCode {
  import opened Arith
  import opened Bits
  import opened CountingSort
  import CodeLengths

  const MAX_CODE_LEN := 23

  /** The first code of length n. */
  function First(len: seq<nat>, n: nat): nat {
    if n == 0 then 0 else 2 * (First(len, n - 1) + |Positions(len, n - 1, |len|)|)
  }

  function Code(len: seq<nat>, i: nat): nat
    requires i < |len|
  {
    First(len, len[i]) + |Positions(len, len[i], i)|
  }

  function CodeBits(len: seq<nat>, i: nat): Bits
    requires i < |len|
  {
    ToBits(Code(len, i), len[i])
  }

  /** Codes of one length are consecutive: each lies below First + count. */
  lemma CodeInRange(len: seq<nat>, i: nat)
    requires i < |len|
    ensures First(len, len[i]) <= Code(len, i) < First(len, len[i]) + |Positions(len, len[i], |len|)|
  {
    PositionsGrow(len, len[i], i, |len|);
  }

  /** A longer code, cut to n bits, lies beyond every code of length n. */
  lemma {:induction false} FirstBeyond(len: seq<nat>, n: nat, m: nat)
    requires n < m
    ensures First(len, m) >= (First(len, n) + |Positions(len, n, |len|)|) * Pow2(m - n)
    decreases m
  {
    if n + 1 < m {
      FirstBeyond(len, n, m - 1);
      Double(First(len, n) + |Positions(len, n, |len|)|, Pow2(m - 1 - n));
    }
  }

  lemma LongerCodeIsBeyond(len: seq<nat>, i: nat, n: nat)
    requires i < |len| && n < len[i]
    ensures Code(len, i) / Pow2(len[i] - n) >= First(len, n) + |Positions(len, n, |len|)|
  {
    hide First, Positions, Pow2;
    FirstBeyond(len, n, len[i]);
    var p, x := Pow2(len[i] - n), First(len, n) + |Positions(len, n, |len|)|;
    assert Code(len, i) >= x * p;
    DivAtLeast(Code(len, i), p, x);
  }

  /** No code is a prefix of another, whatever the lengths, once codes fit. */
  lemma PrefixFree(len: seq<nat>, i: nat, j: nat)
    requires i < |len| && j < |len| && i != j && len[i] <= len[j]
    requires Code(len, i) < Pow2(len[i]) && Code(len, j) < Pow2(len[j])
    ensures CodeBits(len, j)[..len[i]] != CodeBits(len, i)
  {
    var k := len[j] - len[i];
    ToBitsPrefix(Code(len, j), len[j], k);
    FromToBits(Code(len, i), len[i]);
    CodeInRange(len, i);
    if k == 0 {
      FromToBits(Code(len, j), len[j]);
      assert CodeBits(len, j)[..len[i]] == CodeBits(len, j);
      PositionsGrow(len, len[i], i, |len|);
      PositionsGrow(len, len[i], j, |len|);
    } else {
      LongerCodeIsBeyond(len, j, len[i]);
      Pow2Add(len[i], k);
      DivBelow(Code(len, j), Pow2(k), Pow2(len[i]));
      FromToBits(Code(len, j) / Pow2(k), len[i]);
    }
  }

  // ---------- Kraft's inequality makes the codes fit ----------

  /** The part of the Kraft sum due to codes shorter than n. */
  ghost function KraftBelow(len: seq<nat>, m: nat, n: nat, k: nat): nat
    requires k <= |len|
  {
    if k == 0 then 0
    else KraftBelow(len, m, n, k - 1) + (if len[k - 1] < n && len[k - 1] <= m then Pow2(m - len[k - 1]) else 0)
  }

  lemma {:induction false} KraftBelowStep(len: seq<nat>, m: nat, n: nat, k: nat)
    requires k <= |len| && n <= m
    ensures KraftBelow(len, m, n + 1, k) == KraftBelow(len, m, n, k) + |Positions(len, n, k)| * Pow2(m - n)
  {
    if k > 0 {
      KraftBelowStep(len, m, n, k - 1);
      Distribute(|Positions(len, n, k - 1)|, 1, Pow2(m - n));
    }
  }

  lemma {:induction false} FirstIsKraft(len: seq<nat>, m: nat, n: nat)
    requires n <= m
    ensures First(len, n) * Pow2(m - n) == KraftBelow(len, m, n, |len|)
  {
    if n == 0 {
      NothingBelowZero(len, m, |len|);
    } else {
      FirstIsKraft(len, m, n - 1);
      KraftBelowStep(len, m, n - 1, |len|);
      var f, c, p := First(len, n - 1), |Positions(len, n - 1, |len|)|, Pow2(m - n);
      Distribute(f, c, 2 * p);
      Double(f + c, p);
    }
  }

  lemma {:induction false} NothingBelowZero(len: seq<nat>, m: nat, k: nat)
    requires k <= |len|
    ensures KraftBelow(len, m, 0, k) == 0
  {
    if k > 0 {
      NothingBelowZero(len, m, k - 1);
    }
  }

  lemma {:induction false} KraftBelowAll(len: seq<nat>, m: nat, n: nat, k: nat)
    requires k <= |len|
    ensures KraftBelow(len, m, n, k) <= CodeLengths.Kraft(len[..k], m)
  {
    if k > 0 {
      KraftBelowAll(len, m, n, k - 1);
      assert len[..k][..k - 1] == len[..k - 1];
    }
  }

  lemma CodesFit(len: seq<nat>, m: nat, i: nat)
    requires i < |len| && len[i] <= m && CodeLengths.Kraft(len, m) <= Pow2(m)
    ensures Code(len, i) < Pow2(len[i])
  {
    var n := len[i];
    CodeInRange(len, i);
    FirstIsKraft(len, m, n);
    KraftBelowStep(len, m, n, |len|);
    KraftBelowAll(len, m, n + 1, |len|);
    assert len[..|len|] == len;
    var f, c, p := First(len, n), |Positions(len, n, |len|)|, Pow2(m - n);
    Pow2Add(n, m - n);
    Distribute(f, c, p);
    MulLess(f + c, Pow2(n) + 1, p) by {
      Distribute(Pow2(n), 1, p);
    }
  }

  // ---------- The decoder's tables ----------

  /** The largest code of length n, minus one when there is none. */
  function Limit(len: seq<nat>, n: nat): int {
    First(len, n) + |Positions(len, n, |len|)| - 1
  }

  function Base(len: seq<nat>, n: nat): int {
    First(len, n) - |StableOrder(len, n)|
  }

  /** Looking a code up: every shorter cut exceeds its limit, the full code
      does not, and the permutation entry found is the symbol. */
  lemma Lookup(len: seq<nat>, i: nat, m: nat)
    requires i < |len| && len[i] < m
    ensures forall n :: n < len[i] ==> Code(len, i) / Pow2(len[i] - n) > Limit(len, n)
    ensures Code(len, i) <= Limit(len, len[i])
    ensures 0 <= Code(len, i) - Base(len, len[i]) < |StableOrder(len, m)|
    ensures StableOrder(len, m)[Code(len, i) - Base(len, len[i])] == i
  {
    forall n | n < len[i] ensures Code(len, i) / Pow2(len[i] - n) > Limit(len, n) {
      LongerCodeIsBeyond(len, i, n);
    }
    var n := len[i];
    CodeInRange(len, i);
    OrderLength(len, n);
    RowFindsPosition(len, m, i);
  }

  // ---------- The loops of huffman.c ----------

  /** All lengths lie between the two bounds the callers compute. */
  ghost predicate Within(len: seq<nat>, minLen: nat, maxLen: nat) {
    && minLen <= maxLen
    && (forall i :: 0 <= i < |len| ==> minLen <= len[i] <= maxLen)
  }

  lemma {:induction false} StartsEmpty(len: seq<nat>, minLen: nat, n: nat)
    requires n <= minLen && forall i :: 0 <= i < |len| ==> minLen <= len[i]
    ensures First(len, n) == 0 && StableOrder(len, n) == []
  {
    if n > 0 {
      NothingBelow(len, minLen, n - 1, |len|);
      StartsEmpty(len, minLen, n - 1);
    }
  }

  function Codes(len: seq<nat>): (s: seq<nat>)
    ensures |s| == |len| && forall i :: 0 <= i < |len| ==> s[i] == Code(len, i)
  {
    seq(|len|, i requires 0 <= i < |len| => Code(len, i))
  }

  /** One round of BZ2_hbAssignCodes: the codes of length n. */
  method AssignRound(code: array<nat>, length: seq<nat>, n: nat, first: nat) returns (vec: nat)
    requires |length| <= code.Length && first == First(length, n)
    modifies code
    ensures vec == first + |Positions(length, n, |length|)|
    ensures forall i :: 0 <= i < |length| ==>
      code[i] == if length[i] == n then Codes(length)[i] else old(code[i])
  {
    vec := first;
    ghost var codes := Codes(length);
    for i := 0 to |length|
      invariant vec == first + |Positions(length, n, i)|
      invariant forall q :: 0 <= q < |length| ==>
        code[q] == if q < i && length[q] == n then codes[q] else old(code[q])
    {
      if length[i] == n {
        NextCode(length, i);
        code[i] := vec;
        vec := vec + 1;
      }
    }
  }

  /** BZ2_hbAssignCodes. */
  method AssignCodes(code: array<nat>, length: seq<nat>, minLen: nat, maxLen: nat)
    requires |length| <= code.Length && Within(length, minLen, maxLen)
    modifies code
    ensures code[..|length|] == Codes(length)
  {
    hide Code;
    var vec := 0;
    ghost var codes := Codes(length);
    StartsEmpty(length, minLen, minLen);
    for n := minLen to maxLen + 1
      invariant vec == First(length, n)
      invariant forall i :: 0 <= i < |length| && length[i] < n ==> code[i] == codes[i]
    {
      vec := AssignRound(code, length, n, vec);
      vec := vec * 2;
    }
  }

  lemma NextCode(len: seq<nat>, i: nat)
    requires i < |len|
    ensures Codes(len)[i] == First(len, len[i]) + |Positions(len, len[i], i)|
  {
  }

  /** What BZ2_hbCreateDecodeTables leaves behind for GET_MTF_VAL to use. */
  ghost predicate TablesFor(limit: seq<int>, base: seq<int>, perm: seq<nat>,
                            len: seq<nat>, minLen: nat, maxLen: nat)
  {
    && |limit| == |base| == |perm| == MAX_ALPHA_SIZE && |len| <= MAX_ALPHA_SIZE
    && (forall n :: minLen <= n <= maxLen && n < MAX_CODE_LEN ==> limit[n] == Limit(len, n) && base[n] == Base(len, n))
    && (forall n :: maxLen < n < MAX_CODE_LEN ==> limit[n] == 0 && base[n] == |len|)
    && perm[..|len|] == StableOrder(len, maxLen + 1)
  }

  method FillPerm(perm: array<nat>, length: seq<nat>, minLen: nat, maxLen: nat)
    requires perm.Length == MAX_ALPHA_SIZE && |length| <= MAX_ALPHA_SIZE && Within(length, minLen, maxLen)
    modifies perm
    ensures perm[..|length|] == StableOrder(length, maxLen + 1)
  {
    hide Positions, StableOrder;
    var pp := 0;
    StartsEmpty(length, minLen, minLen);
    OrderIsFull(length, maxLen + 1);
    for i := minLen to maxLen + 1
      invariant pp == |StableOrder(length, i)| <= |length| && perm[..pp] == StableOrder(length, i)
    {
      ghost var done := StableOrder(length, i);
      OrderPrefix(length, i + 1, maxLen + 1);
      OrderGrows(length, i);
      NoPositions(length, i);
      for j := 0 to |length|
        invariant pp == |done| + |Positions(length, i, j)| <= |length|
        invariant perm[..pp] == done + Positions(length, i, j)
      {
        PositionsGrow(length, i, j, |length|);
        OneMorePosition(length, i, j);
        if length[j] == i {
          perm[pp] := j;
          pp := pp + 1;
        }
      }
    }
  }

  method FillBase(base: array<int>, length: seq<nat>, minLen: nat, maxLen: nat)
    requires base.Length == MAX_ALPHA_SIZE && |length| <= MAX_ALPHA_SIZE && Within(length, minLen, maxLen)
    requires maxLen + 1 < MAX_CODE_LEN
    modifies base
    ensures forall n :: 0 <= n < MAX_CODE_LEN ==> base[n] == |StableOrder(length, n)|
  {
    hide Positions, StableOrder;
    for i := 0 to MAX_CODE_LEN
      invariant forall n :: 0 <= n < i ==> base[n] == 0
    {
      base[i] := 0;
    }
    forall n ensures |Positions(length, n, 0)| == 0 {
      NoPositions(length, n);
    }
    for i := 0 to |length|
      invariant forall n :: 1 <= n < MAX_CODE_LEN ==> base[n] == |Positions(length, n - 1, i)|
      invariant base[0] == 0
    {
      forall n ensures |Positions(length, n, i + 1)| == |Positions(length, n, i)| + if n == length[i] then 1 else 0 {
        OneMorePosition(length, n, i);
      }
      base[length[i] + 1] := base[length[i] + 1] + 1;
    }
    OrderStarts(length);
    for i := 1 to MAX_CODE_LEN
      invariant forall n :: 0 <= n < i ==> base[n] == |StableOrder(length, n)|
      invariant forall n :: i <= n < MAX_CODE_LEN ==> base[n] == |Positions(length, n - 1, |length|)|
    {
      OrderGrows(length, i - 1);
      base[i] := base[i] + base[i - 1];
    }
  }

  lemma OrderStarts(length: seq<nat>)
    ensures StableOrder(length, 0) == []
  {
  }

  lemma OrderGrows(length: seq<nat>, n: nat)
    ensures StableOrder(length, n + 1) == StableOrder(length, n) + Positions(length, n, |length|)
  {
  }

  method FillLimit(limit: array<int>, base: array<int>, length: seq<nat>, minLen: nat, maxLen: nat)
    requires limit != base && limit.Length == base.Length == MAX_ALPHA_SIZE
    requires Within(length, minLen, maxLen) && maxLen + 1 < MAX_CODE_LEN
    requires forall n :: 0 <= n < MAX_CODE_LEN ==> base[n] == |StableOrder(length, n)|
    modifies limit
    ensures forall n :: minLen <= n <= maxLen ==> limit[n] == Limit(length, n)
    ensures forall n :: maxLen < n < MAX_CODE_LEN ==> limit[n] == 0
  {
    for i := 0 to MAX_CODE_LEN
      invariant forall n :: 0 <= n < i ==> limit[n] == 0
    {
      limit[i] := 0;
    }
    var vec := 0;
    StartsEmpty(length, minLen, minLen);
    for i := minLen to maxLen + 1
      invariant vec == First(length, i)
      invariant forall n :: minLen <= n < i ==> limit[n] == Limit(length, n)
      invariant forall n :: i <= n < MAX_CODE_LEN ==> limit[n] == 0
    {
      vec := vec + (base[i + 1] - base[i]);
      limit[i] := vec - 1;
      vec := vec * 2;
    }
  }

  lemma FirstStep(len: seq<nat>, n: nat)
    requires n > 0
    ensures First(len, n) == (Limit(len, n - 1) + 1) * 2
  {
  }

  method RebaseCodes(limit: array<int>, base: array<int>, length: seq<nat>, minLen: nat, maxLen: nat)
    requires limit != base && limit.Length == base.Length == MAX_ALPHA_SIZE
    requires Within(length, minLen, maxLen) && maxLen + 1 < MAX_CODE_LEN
    requires forall n :: minLen <= n <= maxLen ==> limit[n] == Limit(length, n)
    requires forall n :: 0 <= n < MAX_CODE_LEN ==> base[n] == |StableOrder(length, n)|
    modifies base
    ensures forall n :: minLen <= n <= maxLen ==> base[n] == Base(length, n)
    ensures forall n :: maxLen < n < MAX_CODE_LEN ==> base[n] == |length|
  {
    hide Positions, StableOrder, First;
    StartsEmpty(length, minLen, minLen);
    for i := minLen + 1 to maxLen + 1
      invariant forall n :: minLen <= n < i ==> base[n] == Base(length, n)
      invariant forall n :: i <= n < MAX_CODE_LEN ==> base[n] == |StableOrder(length, n)|
    {
      FirstStep(length, i);
      base[i] := (limit[i - 1] + 1) * 2 - base[i];
    }
    forall n | maxLen < n < MAX_CODE_LEN ensures base[n] == |length| {
      OrderIsFull(length, n);
    }
  }

  /** BZ2_hbCreateDecodeTables. */
  method CreateDecodeTables(limit: array<int>, base: array<int>, perm: array<nat>,
                            length: seq<nat>, minLen: nat, maxLen: nat)
    requires limit != base && limit as object != perm && base as object != perm
    requires limit.Length == base.Length == perm.Length == MAX_ALPHA_SIZE
    requires |length| <= MAX_ALPHA_SIZE && Within(length, minLen, maxLen) && maxLen + 1 < MAX_CODE_LEN
    modifies limit, base, perm
    ensures TablesFor(limit[..], base[..], perm[..], length, minLen, maxLen)
  {
    FillPerm(perm, length, minLen, maxLen);
    OrderIsFull(length, maxLen + 1);
    FillBase(base, length, minLen, maxLen);
    FillLimit(limit, base, length, minLen, maxLen);
    RebaseCodes(limit, base, length, minLen, maxLen);
  }
}
