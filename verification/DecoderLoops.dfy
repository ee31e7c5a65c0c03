/** The loops of decompress.c between two suspension points, against the
    functions by which the decoder machine describes them. */
module DecoderLoops {
  import opened Arith
  import opened CountingSort
  import opened MoveToFront
  import opened GenerateMtf
  import opened CanonicalCode
  import opened DecoderMachine

  /** makeMaps_d. */
  method MakeMapsD(inUse: seq<bool>, seqToUnseq: array<nat>) returns (nInUse: nat)
    requires |inUse| == seqToUnseq.Length == 256
    modifies seqToUnseq
    ensures nInUse == |Used(inUse, 256)| && seqToUnseq[..nInUse] == Used(inUse, 256)
  {
    nInUse := 0;
    for i := 0 to 256
      invariant nInUse == |Used(inUse, i)| <= i && seqToUnseq[..nInUse] == Used(inUse, i)
    {
      if inUse[i] {
        seqToUnseq[nInUse] := i;
        nInUse := nInUse + 1;
      }
    }
  }

  /** Move entry v of pos to the front. */
  method Front1(pos: array<nat>, v0: nat, ghost n: nat) returns (tmp: nat)
    requires v0 < n <= pos.Length
    modifies pos
    ensures tmp == old(pos[v0]) && pos[..n] == MoveFront(old(pos[..n]), v0)
  {
    ghost var list: seq<nat> := pos[..n];
    var v := v0;
    tmp := pos[v];
    while v > 0
      invariant v <= v0
      invariant forall i :: 0 <= i <= v ==> pos[i] == list[i] || i == v
      invariant forall i :: v < i <= v0 ==> pos[i] == list[i - 1]
      invariant forall i :: v0 < i < n ==> pos[i] == list[i]
    {
      pos[v] := pos[v - 1];
      v := v - 1;
    }
    pos[0] := tmp;
  }

  lemma UnrankStep(ranks: seq<nat>, pos: seq<nat>, i: nat)
    requires i < |ranks| && forall k :: 0 <= k < |ranks| ==> ranks[k] < |pos|
    ensures Unrank(ranks[i..], pos) == [pos[ranks[i]]] + Unrank(ranks[i + 1..], MoveFront(pos, ranks[i]))
  {
    assert ranks[i..][1..] == ranks[i + 1..];
  }

  /** Undo the MTF values for the selectors. */
  method UndoSelectors(selectorMtf: seq<nat>, nGroups: nat) returns (selector: seq<nat>)
    requires nGroups <= 6 && forall i :: 0 <= i < |selectorMtf| ==> selectorMtf[i] < nGroups
    ensures selector == Unrank(selectorMtf, Iota(nGroups))
  {
    hide MoveFront;
    var pos := new nat[6](v => v);
    selector := [];
    ghost var plan := Unrank(selectorMtf, Iota(nGroups));
    assert pos[..nGroups] == Iota(nGroups) && selectorMtf[0..] == selectorMtf;
    for i := 0 to |selectorMtf|
      invariant selector + Unrank(selectorMtf[i..], pos[..nGroups]) == plan
    {
      ghost var list, done := pos[..nGroups], selector;
      UnrankStep(selectorMtf, list, i);
      var tmp := Front1(pos, selectorMtf[i], nGroups);
      selector := selector + [tmp];
      assert selector + Unrank(selectorMtf[i + 1..], pos[..nGroups])
          == done + ([tmp] + Unrank(selectorMtf[i + 1..], pos[..nGroups]));
    }
    assert selectorMtf[|selectorMtf|..] == [];
  }

  /** The tables BZ2_hbCreateDecodeTables leaves behind are the ones GET_MTF_VAL
      looks up, for every length it can ask for. */
  lemma TablesAgree(limit: seq<int>, base: seq<int>, perm: seq<nat>, len: seq<Len>, n: nat)
    requires len != [] && TablesFor(limit, base, perm, len, MinLen(len), MaxLen(len))
    requires MinLen(len) <= n <= 20
    ensures limit[n] == LimitFor(len, n) && base[n] == BaseFor(len, n)
    ensures |PermFor(len)| == |len| <= |perm| && forall k :: 0 <= k < |len| ==> perm[k] == PermFor(len)[k]
  {
    hide Limit, Base, StableOrder;
    OrderIsFull(len, MaxLen(len) + 1);
    assert perm[..|len|] == PermFor(len);
    assert forall k :: 0 <= k < |len| ==> perm[k] == perm[..|len|][k];
  }

  /** The bounds loop and BZ2_hbCreateDecodeTables for one table. */
  method PrepareTable(len: seq<Len>, limit: array<int>, base: array<int>, perm: array<nat>) returns (minLen: nat)
    requires 0 < |len| <= MAX_ALPHA_SIZE
    requires limit != base && limit as object != perm && base as object != perm
    requires limit.Length == base.Length == perm.Length == MAX_ALPHA_SIZE
    modifies limit, base, perm
    ensures minLen == MinLen(len)
    ensures forall n :: MinLen(len) <= n <= 20 ==> limit[n] == LimitFor(len, n) && base[n] == BaseFor(len, n)
    ensures perm[..|len|] == PermFor(len)
  {
    hide LimitFor, BaseFor, PermFor, TablesFor;
    minLen := 32;
    var maxLen: nat := 0;
    for i := 0 to |len|
      invariant minLen == MinLen(len[..i]) && maxLen == MaxLen(len[..i])
    {
      assert len[..i + 1][..i] == len[..i];
      if len[i] > maxLen { maxLen := len[i]; }
      if len[i] < minLen { minLen := len[i]; }
    }
    assert len[..|len|] == len;
    assert MinLen(len) <= len[0] <= MaxLen(len);
    CreateDecodeTables(limit, base, perm, len, minLen, maxLen);
    forall n | MinLen(len) <= n <= 20 ensures limit[n] == LimitFor(len, n) && base[n] == BaseFor(len, n) {
      TablesAgree(limit[..], base[..], perm[..], len, n);
    }
    TablesAgree(limit[..], base[..], perm[..], len, MinLen(len));
  }
}
