/** sendMTFValues (compress.c): choose coding tables, then send the mapping
    table, the selectors, the tables and the symbols. */
module SendMtf {
  import opened Arith
  import opened Bits
  import opened MoveToFront
  import opened GenerateMtf
  import opened CanonicalCode
  import opened BlockImage
  import opened BitWriter
  import CodeLengths

  const N_GROUPS := 6
  const N_ITERS := 4
  const LESSER_ICOST := 0
  const GREATER_ICOST := 15

  // ---------- Sending ----------

  /** Writing the next part of what is planned. */
  lemma Onward(before: Bits, part: Bits, rest: Bits, plan: Bits)
    requires before + (part + rest) == plan
    ensures before + part + rest == plan
  {
    assert before + (part + rest) == before + part + rest;
  }

  lemma AllSent(sent: Bits, plan: Bits)
    requires sent + [] == plan
    ensures sent == plan
  {
    assert sent + [] == sent;
  }

  lemma OneBit(b: bool)
    ensures Pow2(1) == 2 && ToBits(if b then 1 else 0, 1) == [b]
  {
    assert ToBits(if b then 1 else 0, 1) == ToBits(0, 0) + [b];
  }

  method SendBit(w: BitStream, b: bool)
    requires w.Valid()
    modifies w
    ensures w.Valid() && w.Sent() == old(w.Sent()) + [b]
  {
    hide BitStream.Sent, BitStream.Valid;
    OneBit(b);
    if b { w.W(1, 1); } else { w.W(1, 0); }
  }

  method FindRows(inUse: seq<bool>) returns (inUse16: array<bool>)
    requires |inUse| == 256
    ensures fresh(inUse16) && inUse16.Length == 16
    ensures forall i :: 0 <= i < 16 ==> inUse16[i] == RowUsed(inUse, i)
  {
    inUse16 := new bool[16];
    for i := 0 to 16
      invariant forall k :: 0 <= k < i ==> inUse16[k] == RowUsed(inUse, k)
    {
      inUse16[i] := false;
      for j := 0 to 16
        invariant forall k :: 0 <= k < i ==> inUse16[k] == RowUsed(inUse, k)
        invariant inUse16[i] <==> true in Row16(inUse, i)[..j]
      {
        assert Row16(inUse, i)[..j + 1] == Row16(inUse, i)[..j] + [inUse[i * 16 + j]];
        if inUse[i * 16 + j] { inUse16[i] := true; }
      }
      assert Row16(inUse, i)[..16] == Row16(inUse, i);
    }
  }

  method SendRow(w: BitStream, inUse: seq<bool>, i: nat)
    requires w.Valid() && |inUse| == 256 && i < 16
    modifies w
    ensures w.Valid() && w.Sent() == old(w.Sent()) + Row16(inUse, i)
  {
    hide BitStream.Sent, BitStream.Valid;
    for j := 0 to 16
      invariant w.Valid() && w.Sent() == old(w.Sent()) + Row16(inUse, i)[..j]
    {
      assert Row16(inUse, i)[..j + 1] == Row16(inUse, i)[..j] + [inUse[i * 16 + j]];
      SendBit(w, inUse[i * 16 + j]);
    }
    assert Row16(inUse, i)[..16] == Row16(inUse, i);
  }

  method SendHead(w: BitStream, inUse: seq<bool>, inUse16: array<bool>)
    requires w.Valid() && |inUse| == 256 && inUse16.Length == 16
    requires forall i :: 0 <= i < 16 ==> inUse16[i] == RowUsed(inUse, i)
    modifies w
    ensures w.Valid() && w.Sent() == old(w.Sent()) + HeadFrom(inUse, 0)
  {
    hide RowUsed, BitStream.Sent, BitStream.Valid;
    ghost var plan := w.Sent() + HeadFrom(inUse, 0);
    for i := 0 to 16
      invariant w.Valid() && w.Sent() + HeadFrom(inUse, i) == plan
    {
      Onward(w.Sent(), [RowUsed(inUse, i)], HeadFrom(inUse, i + 1), plan);
      SendBit(w, inUse16[i]);
    }
    AllSent(w.Sent(), plan);
  }

  method SendRows(w: BitStream, inUse: seq<bool>, inUse16: array<bool>)
    requires w.Valid() && |inUse| == 256 && inUse16.Length == 16
    requires forall i :: 0 <= i < 16 ==> inUse16[i] == RowUsed(inUse, i)
    modifies w
    ensures w.Valid() && w.Sent() == old(w.Sent()) + RowsFrom(inUse, 0)
  {
    hide RowUsed, BitStream.Sent, BitStream.Valid;
    ghost var plan := w.Sent() + RowsFrom(inUse, 0);
    for i := 0 to 16
      invariant w.Valid() && w.Sent() + RowsFrom(inUse, i) == plan
    {
      Onward(w.Sent(), if RowUsed(inUse, i) then Row16(inUse, i) else [], RowsFrom(inUse, i + 1), plan);
      if inUse16[i] { SendRow(w, inUse, i); }
      else { assert w.Sent() + [] == w.Sent(); }
    }
    AllSent(w.Sent(), plan);
  }

  method SendMap(w: BitStream, inUse: seq<bool>)
    requires w.Valid() && |inUse| == 256
    modifies w
    ensures w.Valid() && w.Sent() == old(w.Sent()) + HeadFrom(inUse, 0) + RowsFrom(inUse, 0)
  {
    hide RowUsed, BitStream.Sent, BitStream.Valid;
    var inUse16 := FindRows(inUse);
    SendHead(w, inUse, inUse16);
    SendRows(w, inUse, inUse16);
  }

  method SendUnary(w: BitStream, n: nat)
    requires w.Valid()
    modifies w
    ensures w.Valid() && w.Sent() == old(w.Sent()) + Unary(n)
  {
    hide BitStream.Sent, BitStream.Valid;
    for j := 0 to n
      invariant w.Valid() && w.Sent() + Unary(n - j) == old(w.Sent()) + Unary(n)
    {
      ghost var before := w.Sent();
      SendBit(w, true);
      assert w.Sent() + Unary(n - (j + 1)) == before + Unary(n - j);
    }
    SendBit(w, false);
  }

  method SendSelectors(w: BitStream, nGroups: nat, selectorMtf: seq<nat>)
    requires w.Valid() && nGroups < 8 && |selectorMtf| < 32768
    modifies w
    ensures w.Valid()
    ensures w.Sent() == old(w.Sent()) + ToBits(nGroups, 3) + ToBits(|selectorMtf|, 15) + UnaryAll(selectorMtf)
  {
    hide ToBits, Unary, BitStream.Sent, BitStream.Valid;
    SmallPowers();
    w.W(3, nGroups);
    w.W(15, |selectorMtf|);
    ghost var sent := w.Sent();
    assert selectorMtf[0..] == selectorMtf;
    for i := 0 to |selectorMtf|
      invariant w.Valid() && w.Sent() + UnaryAll(selectorMtf[i..]) == sent + UnaryAll(selectorMtf)
    {
      ghost var before := w.Sent();
      SendUnary(w, selectorMtf[i]);
      assert selectorMtf[i..][1..] == selectorMtf[i + 1..];
      assert w.Sent() + UnaryAll(selectorMtf[i + 1..]) == before + UnaryAll(selectorMtf[i..]);
    }
    assert selectorMtf[|selectorMtf|..] == [];
    assert w.Sent() + [] == w.Sent();
  }

  lemma SmallPowers()
    ensures Pow2(2) == 4 && Pow2(3) == 8 && Pow2(5) == 32 && Pow2(15) == 32768
  {
    assert Pow2(5) == 32;
    Pow2Add(5, 5);
    Pow2Add(10, 5);
  }

  lemma TwoBits()
    ensures ToBits(2, 2) == [true, false] && ToBits(3, 2) == [true, true]
  {
    assert ToBits(1, 1) == [true];
  }

  /** From one length to the next, one step at a time. */
  method SendSteps(w: BitStream, curr0: nat, target: nat) returns (curr: nat)
    requires w.Valid()
    modifies w
    ensures w.Valid() && curr == target && w.Sent() == old(w.Sent()) + Steps(curr0, target)
  {
    hide ToBits, BitStream.Sent, BitStream.Valid;
    SmallPowers();
    TwoBits();
    curr := curr0;
    ghost var plan := w.Sent() + Steps(curr0, target);
    while curr < target
      invariant w.Valid() && w.Sent() + Steps(curr, target) == plan
    {
      Onward(w.Sent(), [true, false], Steps(curr + 1, target), plan);
      w.W(2, 2);
      curr := curr + 1;
    }
    while curr > target
      invariant curr >= target
      invariant w.Valid() && w.Sent() + Steps(curr, target) == plan
    {
      Onward(w.Sent(), [true, true], Steps(curr - 1, target), plan);
      w.W(2, 3);
      curr := curr - 1;
    }
    AllSent(w.Sent(), plan);
  }

  method SendTable(w: BitStream, len: seq<nat>)
    requires w.Valid() && len != [] && len[0] < 32
    modifies w
    ensures w.Valid() && w.Sent() == old(w.Sent()) + TableBits(len)
  {
    hide ToBits, Steps, BitStream.Sent, BitStream.Valid;
    SmallPowers();
    var curr := len[0];
    w.W(5, curr);
    ghost var plan := w.Sent() + Deltas(len[0], len);
    assert len[0..] == len;
    for i := 0 to |len|
      invariant w.Valid() && w.Sent() + Deltas(curr, len[i..]) == plan
    {
      DeltasStep(curr, len, i);
      Onward(w.Sent(), Steps(curr, len[i]) + [false], Deltas(len[i], len[i + 1..]), plan);
      ghost var before, was := w.Sent(), curr;
      curr := SendSteps(w, curr, len[i]);
      SendBit(w, false);
      assert before + Steps(was, len[i]) + [false] == before + (Steps(was, len[i]) + [false]);
    }
    assert len[|len|..] == [];
    AllSent(w.Sent(), plan);
  }

  lemma DeltasStep(curr: nat, len: seq<nat>, i: nat)
    requires i < |len|
    ensures Deltas(curr, len[i..]) == Steps(curr, len[i]) + [false] + Deltas(len[i], len[i + 1..])
  {
    assert len[i..][1..] == len[i + 1..];
  }

  // ---------- Sending symbols ----------

  /** The tables hold the lengths and codes of the coding. */
  ghost predicate TablesHold(c: Coding, len: seq<array<nat>>, code: seq<array<nat>>, alphaSize: nat)
    reads set t | t in len, set t | t in code
  {
    && |c.lens| <= |len| && |c.lens| <= |code|
    && (forall t :: 0 <= t < |c.lens| ==>
         && alphaSize <= len[t].Length && alphaSize <= code[t].Length && |c.lens[t]| == alphaSize
         && len[t][..alphaSize] == c.lens[t] && code[t][..alphaSize] == Codes(c.lens[t]))
  }

  lemma SymbolFits(c: Coding, alphaSize: nat, syms: seq<nat>, i: nat)
    requires GoodCoding(c, alphaSize, |syms|) && i < |syms| && syms[i] < alphaSize
    ensures i / GROUP_SIZE < |c.selectors| && c.selectors[i / GROUP_SIZE] < |c.lens|
    ensures syms[i] < |LensAt(c, i)| == alphaSize && LensAt(c, i)[syms[i]] <= MAX_LEN
    ensures Code(LensAt(c, i), syms[i]) < Pow2(LensAt(c, i)[syms[i]])
  {
    hide Code, CodeLengths.Kraft;
    assert i / GROUP_SIZE < (|syms| + GROUP_SIZE - 1) / GROUP_SIZE;
    assert GoodLengths(c.lens[c.selectors[i / GROUP_SIZE]], alphaSize);
    CodesFit(LensAt(c, i), MAX_LEN, syms[i]);
  }

  /** One group; the fast track is this loop unrolled fifty times. */
  method SendGroup(w: BitStream, len: array<nat>, code: array<nat>, mtfv: seq<nat>, gs: nat, ge: nat,
                   ghost c: Coding, ghost alphaSize: nat)
    requires w.Valid() && GoodCoding(c, alphaSize, |mtfv|) && Codable(c, mtfv)
    requires forall i :: 0 <= i < |mtfv| ==> mtfv[i] < alphaSize
    requires gs <= ge < |mtfv| && gs % GROUP_SIZE == 0 && ge < gs + GROUP_SIZE
    requires alphaSize <= len.Length && alphaSize <= code.Length
    requires len[..alphaSize] == LensAt(c, gs) && code[..alphaSize] == Codes(LensAt(c, gs))
    modifies w
    ensures w.Valid() && w.Sent() + SymbolBits(c, mtfv, ge + 1) == old(w.Sent()) + SymbolBits(c, mtfv, gs)
  {
    hide ToBits, GoodCoding, Codable, Code, BitStream.Sent, BitStream.Valid;
    ghost var sent := w.Sent();
    for i := gs to ge + 1
      invariant w.Valid() && w.Sent() + SymbolBits(c, mtfv, i) == sent + SymbolBits(c, mtfv, gs)
    {
      ghost var before := w.Sent();
      SymbolFits(c, alphaSize, mtfv, i);
      SameGroup(gs, i);
      assert len[mtfv[i]] == len[..alphaSize][mtfv[i]] && code[mtfv[i]] == code[..alphaSize][mtfv[i]];
      w.W(len[mtfv[i]], code[mtfv[i]]);
      NextSymbolBits(c, mtfv, i);
      assert w.Sent() + SymbolBits(c, mtfv, i + 1) == before + SymbolBits(c, mtfv, i);
    }
  }

  lemma SameGroup(gs: nat, i: nat)
    requires gs % GROUP_SIZE == 0 && gs <= i < gs + GROUP_SIZE
    ensures i / GROUP_SIZE == gs / GROUP_SIZE
  {
  }

  lemma NextSymbolBits(c: Coding, syms: seq<nat>, i: nat)
    requires Codable(c, syms) && i < |syms|
    ensures CodableAt(c, syms, i)
    ensures SymbolBits(c, syms, i) == ToBits(Code(LensAt(c, i), syms[i]), LensAt(c, i)[syms[i]]) + SymbolBits(c, syms, i + 1)
  {
    hide ToBits, Code;
    assert CodableAt(c, syms, i);
  }

  method SendSymbols(w: BitStream, len: seq<array<nat>>, code: seq<array<nat>>, selector: seq<nat>, mtfv: seq<nat>,
                     ghost c: Coding, ghost alphaSize: nat)
    returns (selCtr: nat)
    requires w.Valid() && GoodCoding(c, alphaSize, |mtfv|) && Codable(c, mtfv) && selector == c.selectors
    requires forall i :: 0 <= i < |mtfv| ==> mtfv[i] < alphaSize
    requires TablesHold(c, len, code, alphaSize)
    modifies w
    ensures w.Valid() && w.Sent() == old(w.Sent()) + SymbolBits(c, mtfv, 0)
    // Assertion 3007.
    ensures selCtr == |selector|
  {
    hide GoodCoding, Codable, Codes, SymbolBits, BitStream.Sent, BitStream.Valid;
    ghost var sent := w.Sent();
    selCtr := 0;
    var gs := 0;
    while gs < |mtfv|
      invariant gs <= |mtfv| && (gs < |mtfv| ==> gs == GROUP_SIZE * selCtr)
      invariant gs == |mtfv| ==> selCtr == (|mtfv| + GROUP_SIZE - 1) / GROUP_SIZE
      invariant w.Valid() && w.Sent() + SymbolBits(c, mtfv, gs) == sent + SymbolBits(c, mtfv, 0)
      invariant TablesHold(c, len, code, alphaSize)
      decreases |mtfv| - gs
    {
      var ge := gs + GROUP_SIZE - 1;
      if ge >= |mtfv| { ge := |mtfv| - 1; }
      SymbolFits(c, alphaSize, mtfv, gs);
      assert gs / GROUP_SIZE == selCtr && gs % GROUP_SIZE == 0;
      SendGroup(w, len[selector[selCtr]], code[selector[selCtr]], mtfv, gs, ge, c, alphaSize);
      gs := ge + 1;
      selCtr := selCtr + 1;
    }
    NoSymbolsLeft(c, mtfv);
    SelectorCount(c, alphaSize, |mtfv|);
    assert w.Sent() + [] == w.Sent();
  }

  lemma SelectorCount(c: Coding, alphaSize: nat, nMTF: nat)
    requires GoodCoding(c, alphaSize, nMTF)
    ensures |c.selectors| == (nMTF + GROUP_SIZE - 1) / GROUP_SIZE
  {
  }

  lemma NoSymbolsLeft(c: Coding, syms: seq<nat>)
    requires Codable(c, syms)
    ensures SymbolBits(c, syms, |syms|) == []
  {
  }

  // ---------- Selector ranks ----------

  /** Find ll in pos, moving everything before it one place back. */
  method RankOne(pos: array<nat>, ll: nat, ghost n: nat) returns (j: nat)
    requires 1 <= n <= pos.Length && Distinct(pos[..n]) && ll in pos[..n]
    modifies pos
    ensures j < n && j == IndexOf(old(pos[..n]), ll) && pos[..n] == MoveFront(old(pos[..n]), j)
  {
    ghost var list: seq<nat> := pos[..n];
    ghost var k := IndexOf(list, ll);
    j := 0;
    var tmp := pos[0];
    while ll != tmp
      invariant 0 <= j <= k && tmp == list[j]
      invariant forall i :: 1 <= i <= j ==> pos[i] == list[i - 1]
      invariant forall i :: j < i < n ==> pos[i] == list[i]
      decreases n - j
    {
      j := j + 1;
      var tmp2 := tmp;
      tmp := pos[j];
      pos[j] := tmp2;
    }
    assert j == k;
    pos[0] := tmp;
  }

  lemma RanksStep(selectors: seq<nat>, pos: seq<nat>, i: nat)
    requires i < |selectors| && Distinct(pos) && AllIn(selectors, pos)
    ensures AllIn(selectors[i..], pos)
    ensures var k := IndexOf(pos, selectors[i]);
            && Distinct(MoveFront(pos, k)) && AllIn(selectors, MoveFront(pos, k))
            && Ranks(selectors[i..], pos) == [k] + Ranks(selectors[i + 1..], MoveFront(pos, k))
  {
    MoveFrontFacts(pos, IndexOf(pos, selectors[i]));
    assert selectors[i..][1..] == selectors[i + 1..];
  }

  /** The MTF values of the selectors. */
  method RankSelectors(selector: seq<nat>, nGroups: nat) returns (selectorMtf: seq<nat>)
    requires 1 <= nGroups <= N_GROUPS && AllIn(selector, Iota(nGroups))
    ensures selectorMtf == Ranks(selector, Iota(nGroups))
  {
    hide IndexOf, MoveFront, Distinct;
    var pos := new nat[N_GROUPS](i => i);
    selectorMtf := [];
    ghost var plan := Ranks(selector, Iota(nGroups));
    assert pos[..nGroups] == Iota(nGroups) && selector[0..] == selector;
    for i := 0 to |selector|
      invariant Distinct(pos[..nGroups]) && AllIn(selector, pos[..nGroups])
      invariant AllIn(selector[i..], pos[..nGroups])
      invariant selectorMtf + Ranks(selector[i..], pos[..nGroups]) == plan
    {
      RanksStep(selector, pos[..nGroups], i);
      ghost var done := selectorMtf;
      var j := RankOne(pos, selector[i], nGroups);
      selectorMtf := selectorMtf + [j];
      assert selectorMtf + Ranks(selector[i + 1..], pos[..nGroups]) == done + ([j] + Ranks(selector[i + 1..], pos[..nGroups]));
    }
    assert selector[|selector|..] == [];
  }

  // ---------- Choosing tables ----------

  /** The cost of symbols gs..k under one table. */
  function Cost(len: seq<nat>, mtfv: seq<nat>, gs: nat, k: nat): nat
    requires gs <= k <= |mtfv| && forall i :: 0 <= i < |mtfv| ==> mtfv[i] < |len|
    decreases k
  {
    if k == gs then 0 else Cost(len, mtfv, gs, k - 1) + len[mtfv[k - 1]]
  }

  /** No table entry exceeds 17, so fifty of them stay far below 16 bits. */
  lemma {:induction false} CostBound(len: seq<nat>, mtfv: seq<nat>, gs: nat, k: nat)
    requires gs <= k <= |mtfv| && forall i :: 0 <= i < |mtfv| ==> mtfv[i] < |len|
    requires forall v :: 0 <= v < |len| ==> len[v] <= MAX_LEN
    ensures Cost(len, mtfv, gs, k) <= MAX_LEN * (k - gs)
    decreases k
  {
    if gs < k {
      CostBound(len, mtfv, gs, k - 1);
    }
  }

  /** Two costs summed in the halves of one 32-bit word: no carry crosses. */
  method PackedCosts(lenLow: seq<nat>, lenHigh: seq<nat>, mtfv: seq<nat>, gs: nat) returns (low: nat, high: nat)
    requires gs + 50 <= |mtfv| && |lenLow| == |lenHigh|
    requires forall i :: 0 <= i < |mtfv| ==> mtfv[i] < |lenLow|
    requires forall v :: 0 <= v < |lenLow| ==> lenLow[v] <= MAX_LEN && lenHigh[v] <= MAX_LEN
    ensures low == Cost(lenLow, mtfv, gs, gs + 50) && high == Cost(lenHigh, mtfv, gs, gs + 50)
  {
    var pack := new nat[|lenLow|](v requires 0 <= v < |lenLow| => lenHigh[v] * 65536 + lenLow[v]);
    var cost: nat := 0;
    for nn := 0 to 50
      invariant forall v :: 0 <= v < |lenLow| ==> pack[v] == lenHigh[v] * 65536 + lenLow[v]
      invariant cost == Cost(lenHigh, mtfv, gs, gs + nn) * 65536 + Cost(lenLow, mtfv, gs, gs + nn)
    {
      cost := (cost + pack[mtfv[gs + nn]]) % 0x1_0000_0000;
      CostBound(lenLow, mtfv, gs, gs + nn + 1);
      CostBound(lenHigh, mtfv, gs, gs + nn + 1);
    }
    CostBound(lenLow, mtfv, gs, gs + 50);
    low, high := cost % 65536, cost / 65536;
  }

  /** The general path: each table's cost in a 16-bit counter. */
  method PlainCost(len: seq<nat>, mtfv: seq<nat>, gs: nat, ge: nat) returns (cost: nat)
    requires gs <= ge < |mtfv| && ge < gs + GROUP_SIZE
    requires forall i :: 0 <= i < |mtfv| ==> mtfv[i] < |len|
    requires forall v :: 0 <= v < |len| ==> len[v] <= MAX_LEN
    ensures cost == Cost(len, mtfv, gs, ge + 1)
  {
    cost := 0;
    for i := gs to ge + 1
      invariant cost == Cost(len, mtfv, gs, i)
    {
      CostBound(len, mtfv, gs, i + 1);
      cost := (cost + len[mtfv[i]]) % 65536;
    }
  }

  ghost predicate SmallLens(len: seq<seq<nat>>, alphaSize: nat) {
    forall t :: 0 <= t < |len| ==> |len[t]| == alphaSize && forall v :: 0 <= v < alphaSize ==> len[t][v] <= MAX_LEN
  }

  /** All costs of a group: six tables and a full group go through the packed
      table, everything else through the plain loop, with the same result. */
  method GroupCosts(len: seq<seq<nat>>, mtfv: seq<nat>, gs: nat, ge: nat, ghost alphaSize: nat) returns (cost: seq<nat>)
    requires 2 <= |len| <= N_GROUPS && SmallLens(len, alphaSize)
    requires gs <= ge < |mtfv| && ge < gs + GROUP_SIZE && forall i :: 0 <= i < |mtfv| ==> mtfv[i] < alphaSize
    ensures |cost| == |len|
    ensures forall t :: 0 <= t < |len| ==> |len[t]| == alphaSize && cost[t] == Cost(len[t], mtfv, gs, ge + 1)
  {
    hide Cost;
    if |len| == 6 && ge - gs + 1 == 50 {
      var c0, c1 := PackedCosts(len[0], len[1], mtfv, gs);
      var c2, c3 := PackedCosts(len[2], len[3], mtfv, gs);
      var c4, c5 := PackedCosts(len[4], len[5], mtfv, gs);
      cost := [c0, c1, c2, c3, c4, c5];
    } else {
      cost := [];
      for t := 0 to |len|
        invariant |cost| == t && forall u :: 0 <= u < t ==> cost[u] == Cost(len[u], mtfv, gs, ge + 1)
      {
        var c := PlainCost(len[t], mtfv, gs, ge);
        cost := cost + [c];
      }
    }
  }

  /** The first cheapest table. */
  method Cheapest(cost: seq<nat>) returns (bt: nat)
    requires cost != [] && forall t :: 0 <= t < |cost| ==> cost[t] < 999999999
    ensures bt < |cost| && (forall t :: 0 <= t < |cost| ==> cost[bt] <= cost[t])
    ensures forall t :: 0 <= t < bt ==> cost[bt] < cost[t]
  {
    var bc := 999999999;
    var best: int := -1;
    for t := 0 to |cost|
      invariant best < t && (t == 0 ==> best == -1 && bc == 999999999)
      invariant t > 0 ==> 0 <= best && cost[best] == bc && forall u :: 0 <= u < t ==> bc <= cost[u]
      invariant forall u :: 0 <= u < best ==> bc < cost[u]
    {
      if cost[t] < bc { bc, best := cost[t], t; }
    }
    bt := best;
  }

  // ---------- Initial tables ----------

  /** The six rows of a table such as len[BZ_N_GROUPS][BZ_MAX_ALPHA_SIZE]. */
  ghost predicate Rows(a: seq<array<nat>>) {
    && |a| == N_GROUPS && (forall t :: 0 <= t < N_GROUPS ==> a[t].Length == MAX_ALPHA_SIZE)
    && forall t, u :: 0 <= t < u < N_GROUPS ==> a[t] != a[u]
  }

  ghost predicate Apart(a: seq<array<nat>>, b: seq<array<nat>>) {
    forall t, u :: 0 <= t < |a| && 0 <= u < |b| ==> a[t] != b[u]
  }

  function RowsOf(a: seq<array<nat>>, n: nat, alphaSize: nat): (r: seq<seq<nat>>)
    requires n <= |a| && forall t :: 0 <= t < |a| ==> alphaSize <= a[t].Length
    reads set t | t in a
    ensures |r| == n && forall t :: 0 <= t < n ==> r[t] == a[t][..alphaSize]
  {
    if n == 0 then [] else RowsOf(a, n - 1, alphaSize) + [a[n - 1][..alphaSize]]
  }

  function Sum(freq: seq<nat>, lo: nat, hi: nat): nat
    requires lo <= hi <= |freq|
    decreases hi
  {
    if lo == hi then 0 else Sum(freq, lo, hi - 1) + freq[hi - 1]
  }

  lemma {:induction false} SumSplit(freq: seq<nat>, lo: nat, mid: nat, hi: nat)
    requires lo <= mid <= hi <= |freq|
    ensures Sum(freq, lo, mid) + Sum(freq, mid, hi) == Sum(freq, lo, hi)
    decreases hi
  {
    if mid < hi {
      SumSplit(freq, lo, mid, hi - 1);
    }
  }

  lemma {:induction false} SumOne(freq: seq<nat>, g: seq<nat>, v: nat, hi: nat)
    requires hi <= |freq| == |g| && v < |freq| && g == freq[v := freq[v] + 1]
    ensures Sum(g, 0, hi) == Sum(freq, 0, hi) + (if v < hi then 1 else 0)
  {
    if hi > 0 {
      SumOne(freq, g, v, hi - 1);
    }
  }

  /** The tallied frequencies add up to the number of symbols. */
  lemma {:induction false} TallySum(freq: seq<nat>, v: seq<nat>, n: nat)
    requires |freq| == n && Tally(freq, v, n) && forall i :: 0 <= i < |v| ==> v[i] < n
    ensures Sum(freq, 0, n) == |v|
    decreases |v|
  {
    if v == [] {
      AllZero(freq, n);
    } else {
      var k := |v| - 1;
      assert v == v[..k] + [v[k]];
      var g := freq[v[k] := freq[v[k]] - 1];
      TallySum(g, v[..k], n);
      assert freq == g[v[k] := g[v[k]] + 1];
      SumOne(g, freq, v[k], n);
    }
  }

  lemma {:induction false} AllZero(freq: seq<nat>, n: nat)
    requires n <= |freq| && forall s :: 0 <= s < n ==> freq[s] == 0
    ensures Sum(freq, 0, n) == 0
  {
    if n > 0 {
      AllZero(freq, n - 1);
    }
  }

  method InitialGroup(len: array<nat>, alphaSize: nat, gs: int, ge: int)
    requires alphaSize <= len.Length
    modifies len
    ensures forall v :: 0 <= v < alphaSize ==> len[v] == if gs <= v <= ge then LESSER_ICOST else GREATER_ICOST
  {
    for v := 0 to alphaSize
      invariant forall u :: 0 <= u < v ==> len[u] == if gs <= u <= ge then LESSER_ICOST else GREATER_ICOST
    {
      len[v] := if v >= gs && v <= ge then LESSER_ICOST else GREATER_ICOST;
    }
  }

  /** The symbols gs..end - 1 are the fewest that have the frequency wanted, or
      all that are left. */
  ghost predicate Reached(freq: seq<nat>, gs: nat, end: nat, wanted: nat) {
    && gs <= end <= |freq| && (end == |freq| || Sum(freq, gs, end) >= wanted)
    && (gs < end ==> Sum(freq, gs, end - 1) < wanted)
  }

  /** Stretch k of n goes from `from` to `to` - 1: it is to have an equal share of
      the frequency that is left, and every second inner stretch of two symbols
      or more then gives up its last symbol. */
  ghost predicate CutFrom(freq: seq<nat>, n: nat, k: nat, from: nat, end: nat, to: nat)
    requires k < n
  {
    && from <= to <= |freq| && Reached(freq, from, end, Sum(freq, from, |freq|) / (n - k))
    && to == if end > from + 1 && k != 0 && k != n - 1 && k % 2 == 1 then end - 1 else end
  }

  ghost predicate Cut(freq: seq<nat>, n: nat, k: nat, from: nat, to: nat)
    requires k < n
  {
    exists end: nat :: CutFrom(freq, n, k, from, end, to)
  }

  /** Table n - 1 - k favours the symbols of stretch k and no others. */
  ghost predicate Favours(len: seq<nat>, from: nat, to: nat) {
    forall v :: 0 <= v < |len| ==> len[v] == if from <= v < to then LESSER_ICOST else GREATER_ICOST
  }

  /** The alphabet falls into consecutive stretches, and each table favours one. */
  ghost predicate Split(lens: seq<seq<nat>>, freq: seq<nat>, cuts: seq<nat>, done: nat) {
    && |cuts| == done + 1 && done <= |lens| && cuts[0] == 0
    && (forall k :: 0 <= k < done ==> Cut(freq, |lens|, k, cuts[k], cuts[k + 1]))
    && (forall k :: 0 <= k < done ==> Favours(lens[|lens| - 1 - k], cuts[k], cuts[k + 1]))
  }

  /** From gs on, as many symbols as it takes to reach the frequency wanted. */
  method Stretch(mtfFreq: seq<nat>, gs: nat, alphaSize: nat, tFreq: nat) returns (ge: int, aFreq: nat)
    requires gs <= alphaSize == |mtfFreq|
    ensures gs - 1 <= ge <= alphaSize - 1 && aFreq == Sum(mtfFreq, gs, ge + 1) && Reached(mtfFreq, gs, ge + 1, tFreq)
  {
    ge, aFreq := gs - 1, 0;
    while aFreq < tFreq && ge < alphaSize - 1
      invariant gs - 1 <= ge <= alphaSize - 1 && aFreq == Sum(mtfFreq, gs, ge + 1)
      invariant gs <= ge ==> Sum(mtfFreq, gs, ge) < tFreq
      decreases alphaSize - ge
    {
      ge := ge + 1;
      aFreq := aFreq + mtfFreq[ge];
    }
  }

  lemma LastOfSum(f: seq<nat>, lo: nat, hi: nat)
    requires lo <= hi < |f|
    ensures Sum(f, lo, hi + 1) == Sum(f, lo, hi) + f[hi]
  {
  }

  lemma NextSplit(lens: seq<seq<nat>>, lens': seq<seq<nat>>, freq: seq<nat>, cuts: seq<nat>, done: nat, to: nat)
    requires Split(lens, freq, cuts, done) && done < |lens| == |lens'|
    requires forall t :: 0 <= t < |lens| && t != |lens| - 1 - done ==> lens'[t] == lens[t]
    requires Cut(freq, |lens|, done, cuts[done], to) && Favours(lens'[|lens| - 1 - done], cuts[done], to)
    ensures Split(lens', freq, cuts + [to], done + 1)
  {
    hide Cut, Favours;
    var cuts' := cuts + [to];
    forall k | 0 <= k <= done ensures Cut(freq, |lens|, k, cuts'[k], cuts'[k + 1]) {
    }
    forall k | 0 <= k <= done ensures Favours(lens'[|lens| - 1 - k], cuts'[k], cuts'[k + 1]) {
    }
  }

  lemma SplitIsSmall(lens: seq<seq<nat>>, freq: seq<nat>, cuts: seq<nat>, alphaSize: nat)
    requires Split(lens, freq, cuts, |lens|) && forall t :: 0 <= t < |lens| ==> |lens[t]| == alphaSize
    ensures SmallLens(lens, alphaSize)
  {
    hide Cut;
    forall t | 0 <= t < |lens| ensures forall v :: 0 <= v < alphaSize ==> lens[t][v] <= MAX_LEN {
      var k := |lens| - 1 - t;
      assert Favours(lens[|lens| - 1 - k], cuts[k], cuts[k + 1]);
    }
  }

  /** The table for one stretch: where it ends, and its frequency. */
  method OneStretch(len: array<nat>, mtfFreq: seq<nat>, nGroups: nat, nPart: nat, gs: nat, alphaSize: nat, remF: nat)
    returns (ge: int, aFreq: nat)
    requires 1 <= nPart <= nGroups && gs <= alphaSize == |mtfFreq| <= len.Length && remF == Sum(mtfFreq, gs, alphaSize)
    modifies len
    ensures gs - 1 <= ge <= alphaSize - 1 && aFreq == Sum(mtfFreq, gs, ge + 1)
    ensures Cut(mtfFreq, nGroups, nGroups - nPart, gs, ge + 1) && Favours(len[..alphaSize], gs, ge + 1)
  {
    hide Sum, Reached;
    var tFreq := remF / nPart;
    ge, aFreq := Stretch(mtfFreq, gs, alphaSize, tFreq);
    ghost var end := ge + 1;
    if ge > gs && nPart != nGroups && nPart != 1 && (nGroups - nPart) % 2 == 1 {
      LastOfSum(mtfFreq, gs, ge);
      aFreq := aFreq - mtfFreq[ge];
      ge := ge - 1;
    }
    assert CutFrom(mtfFreq, nGroups, nGroups - nPart, gs, end, ge + 1);
    InitialGroup(len, alphaSize, gs, ge);
  }

  /** Split the alphabet into nGroups stretches of roughly equal frequency. */
  method InitialTables(len: seq<array<nat>>, mtfFreq: seq<nat>, nGroups: nat, alphaSize: nat, nMTF: nat) returns (ghost cuts: seq<nat>)
    requires Rows(len) && 2 <= nGroups <= N_GROUPS && 1 <= alphaSize == |mtfFreq| <= MAX_ALPHA_SIZE
    requires Sum(mtfFreq, 0, alphaSize) == nMTF
    modifies set t | t in len
    ensures SmallLens(RowsOf(len, nGroups, alphaSize), alphaSize)
    ensures Split(RowsOf(len, nGroups, alphaSize), mtfFreq, cuts, nGroups)
  {
    hide Sum, RowsOf, Cut, Favours;
    var nPart, remF, gs := nGroups, nMTF, 0;
    cuts := [0];
    while nPart > 0
      invariant nPart <= nGroups && gs <= alphaSize && remF == Sum(mtfFreq, gs, alphaSize)
      invariant Split(RowsOf(len, nGroups, alphaSize), mtfFreq, cuts, nGroups - nPart) && cuts[nGroups - nPart] == gs
    {
      ghost var lens := RowsOf(len, nGroups, alphaSize);
      var ge, aFreq := OneStretch(len[nPart - 1], mtfFreq, nGroups, nPart, gs, alphaSize, remF);
      SumSplit(mtfFreq, gs, ge + 1, alphaSize);
      NextSplit(lens, RowsOf(len, nGroups, alphaSize), mtfFreq, cuts, nGroups - nPart, ge + 1);
      cuts := cuts + [ge + 1];
      nPart := nPart - 1;
      gs := ge + 1;
      remF := remF - aFreq;
    }
    SplitIsSmall(RowsOf(len, nGroups, alphaSize), mtfFreq, cuts, alphaSize);
  }

  // ---------- One round of refinement ----------

  lemma {:induction false} ClampedBump(freq: seq<nat>, v: nat)
    requires v < |freq|
    ensures CodeLengths.Clamped(freq[v := freq[v] + 1]) <= CodeLengths.Clamped(freq) + 1
  {
    var n := |freq| - 1;
    var g := freq[v := freq[v] + 1];
    if v < n {
      ClampedBump(freq[..n], v);
      assert g[..n] == freq[..n][v := freq[..n][v] + 1];
    } else {
      assert g[..n] == freq[..n];
    }
  }

  lemma {:induction false} ClampedZero(freq: seq<nat>)
    requires forall v :: 0 <= v < |freq| ==> freq[v] == 0
    ensures CodeLengths.Clamped(freq) == |freq|
  {
    if freq != [] {
      ClampedZero(freq[..|freq| - 1]);
    }
  }

  /** How often v is among the symbols lo..hi - 1. */
  ghost function Times(mtfv: seq<nat>, v: nat, lo: nat, hi: nat): nat
    requires hi <= |mtfv|
    decreases hi
  {
    if hi <= lo then 0 else Times(mtfv, v, lo, hi - 1) + (if mtfv[hi - 1] == v then 1 else 0)
  }

  /** How often v is among the first n symbols, in groups coded with table t. */
  ghost function Occurs(selector: seq<nat>, mtfv: seq<nat>, t: nat, v: nat, n: nat): nat
    requires n <= |mtfv|
    decreases n
  {
    if n == 0 then 0
    else
      var i := n - 1;
      Occurs(selector, mtfv, t, v, i)
      + (if i / GROUP_SIZE < |selector| && selector[i / GROUP_SIZE] == t && mtfv[i] == v then 1 else 0)
  }

  lemma {:induction false} OccursPrefix(selector: seq<nat>, selector': seq<nat>, mtfv: seq<nat>, t: nat, v: nat, n: nat, k: nat)
    requires n <= |mtfv| && n <= GROUP_SIZE * k && k <= |selector| && k <= |selector'| && selector[..k] == selector'[..k]
    ensures Occurs(selector, mtfv, t, v, n) == Occurs(selector', mtfv, t, v, n)
    decreases n
  {
    if n > 0 {
      OccursPrefix(selector, selector', mtfv, t, v, n - 1, k);
      var j := (n - 1) / GROUP_SIZE;
      assert j < k && selector[..k][j] == selector'[..k][j];
    }
  }

  /** A whole group is coded with one table. */
  lemma {:induction false} OccursGroup(selector: seq<nat>, mtfv: seq<nat>, t: nat, v: nat, k: nat, hi: nat)
    requires GROUP_SIZE * k <= hi <= |mtfv| && hi <= GROUP_SIZE * k + GROUP_SIZE && k < |selector|
    ensures Occurs(selector, mtfv, t, v, hi)
         == Occurs(selector, mtfv, t, v, GROUP_SIZE * k) + (if t == selector[k] then Times(mtfv, v, GROUP_SIZE * k, hi) else 0)
    decreases hi
  {
    if hi > GROUP_SIZE * k {
      OccursGroup(selector, mtfv, t, v, k, hi - 1);
      assert (hi - 1) / GROUP_SIZE == k;
    }
  }

  /** The frequencies of all symbols under table t. */
  ghost function SymbolCounts(selector: seq<nat>, mtfv: seq<nat>, t: nat, alphaSize: nat): (r: seq<nat>)
    ensures |r| == alphaSize && forall v :: 0 <= v < alphaSize ==> r[v] == Occurs(selector, mtfv, t, v, |mtfv|)
  {
    seq(alphaSize, v requires 0 <= v < alphaSize => Occurs(selector, mtfv, t, v, |mtfv|))
  }

  /** The counts of the first n symbols, by table. */
  ghost predicate Counted(counts: seq<seq<nat>>, selector: seq<nat>, mtfv: seq<nat>, alphaSize: nat, n: nat)
    requires n <= |mtfv|
  {
    forall t :: 0 <= t < |counts| ==>
      |counts[t]| == alphaSize && forall v :: 0 <= v < alphaSize ==> counts[t][v] == Occurs(selector, mtfv, t, v, n)
  }

  /** The symbols lo..hi - 1 are counted for table bt. */
  ghost predicate CountedFor(counts: seq<seq<nat>>, counts': seq<seq<nat>>, mtfv: seq<nat>, alphaSize: nat, bt: nat, lo: nat, hi: nat)
    requires hi <= |mtfv|
  {
    && |counts'| == |counts|
    && forall t :: 0 <= t < |counts| ==> |counts[t]| == |counts'[t]| == alphaSize && forall v :: 0 <= v < alphaSize ==>
         counts'[t][v] == counts[t][v] + if t == bt then Times(mtfv, v, lo, hi) else 0
  }

  /** Count the symbols of a group for the table chosen. */
  method CountGroup(rfreq: array<nat>, mtfv: seq<nat>, gs: nat, ge: nat, ghost alphaSize: nat)
    requires gs <= ge < |mtfv| && alphaSize <= rfreq.Length && forall i :: 0 <= i < |mtfv| ==> mtfv[i] < alphaSize
    modifies rfreq
    ensures CodeLengths.Clamped(rfreq[..alphaSize]) <= CodeLengths.Clamped(old(rfreq[..alphaSize])) + (ge + 1 - gs)
    ensures forall v :: 0 <= v < alphaSize ==> rfreq[v] == old(rfreq[v]) + Times(mtfv, v, gs, ge + 1)
  {
    for i := gs to ge + 1
      invariant CodeLengths.Clamped(rfreq[..alphaSize]) <= CodeLengths.Clamped(old(rfreq[..alphaSize])) + (i - gs)
      invariant forall v :: 0 <= v < alphaSize ==> rfreq[v] == old(rfreq[v]) + Times(mtfv, v, gs, i)
    {
      ghost var before := rfreq[..alphaSize];
      ClampedBump(before, mtfv[i]);
      rfreq[mtfv[i]] := rfreq[mtfv[i]] + 1;
      assert rfreq[..alphaSize] == before[mtfv[i] := before[mtfv[i]] + 1];
    }
  }

  /** The counts are small enough for MakeCodeLengths. */
  ghost predicate Light(counts: seq<seq<nat>>, alphaSize: nat, n: nat) {
    forall t :: 0 <= t < |counts| ==> CodeLengths.Clamped(counts[t]) <= alphaSize + n
  }

  method ClearCounts(rfreq: seq<array<nat>>, nGroups: nat, alphaSize: nat, ghost selector: seq<nat>, ghost mtfv: seq<nat>)
    requires Rows(rfreq) && nGroups <= N_GROUPS && alphaSize <= MAX_ALPHA_SIZE
    modifies set t | t in rfreq
    ensures Light(RowsOf(rfreq, nGroups, alphaSize), alphaSize, 0)
    ensures Counted(RowsOf(rfreq, nGroups, alphaSize), selector, mtfv, alphaSize, 0)
  {
    for t := 0 to nGroups
      invariant forall u :: 0 <= u < t ==> forall v :: 0 <= v < alphaSize ==> rfreq[u][v] == 0
    {
      for v := 0 to alphaSize
        invariant forall u :: 0 <= u < t ==> forall v :: 0 <= v < alphaSize ==> rfreq[u][v] == 0
        invariant forall u :: 0 <= u < v ==> rfreq[t][u] == 0
      {
        rfreq[t][v] := 0;
      }
    }
    forall t | 0 <= t < nGroups ensures CodeLengths.Clamped(rfreq[t][..alphaSize]) <= alphaSize {
      ClampedZero(rfreq[t][..alphaSize]);
    }
  }

  ghost predicate Selecting(selector: seq<nat>, nSelectors: nat, nGroups: nat) {
    nSelectors <= |selector| && forall i :: 0 <= i < nSelectors ==> selector[i] < nGroups
  }

  lemma CostsAreSmall(len: seq<seq<nat>>, mtfv: seq<nat>, gs: nat, ge: nat, alphaSize: nat, t: nat)
    requires SmallLens(len, alphaSize) && t < |len| && gs <= ge < |mtfv| && ge < gs + GROUP_SIZE
    requires forall i :: 0 <= i < |mtfv| ==> mtfv[i] < alphaSize
    ensures |len[t]| == alphaSize && Cost(len[t], mtfv, gs, ge + 1) < 999999999
  {
    CostBound(len[t], mtfv, gs, ge + 1);
  }

  /** Every table has a length for every symbol. */
  ghost predicate AllLengths(lens: seq<seq<nat>>, mtfv: seq<nat>) {
    forall t :: 0 <= t < |lens| ==> forall i :: 0 <= i < |mtfv| ==> mtfv[i] < |lens[t]|
  }

  /** Table bt is the first of those that code symbols gs to ge with the fewest bits. */
  ghost predicate CheapestFor(lens: seq<seq<nat>>, mtfv: seq<nat>, gs: nat, ge: nat, bt: nat) {
    && gs <= ge < |mtfv| && bt < |lens| && AllLengths(lens, mtfv)
    && (forall t :: 0 <= t < |lens| ==> Cost(lens[bt], mtfv, gs, ge + 1) <= Cost(lens[t], mtfv, gs, ge + 1))
    && (forall t :: 0 <= t < bt ==> Cost(lens[bt], mtfv, gs, ge + 1) < Cost(lens[t], mtfv, gs, ge + 1))
  }

  /** The cheapest table for one group. */
  method PickTable(lens: seq<seq<nat>>, mtfv: seq<nat>, gs: nat, ge: nat, ghost alphaSize: nat) returns (bt: nat)
    requires 2 <= |lens| <= N_GROUPS && SmallLens(lens, alphaSize)
    requires gs <= ge < |mtfv| && ge < gs + GROUP_SIZE && forall i :: 0 <= i < |mtfv| ==> mtfv[i] < alphaSize
    ensures CheapestFor(lens, mtfv, gs, ge, bt)
  {
    hide SmallLens, Cost;
    var cost := GroupCosts(lens, mtfv, gs, ge, alphaSize);
    forall t | 0 <= t < |lens| ensures cost[t] < 999999999 {
      CostsAreSmall(lens, mtfv, gs, ge, alphaSize, t);
    }
    bt := Cheapest(cost);
  }

  /** Choose the table for one group; its symbols are counted for it. */
  method ChooseGroup(len: seq<array<nat>>, rfreq: seq<array<nat>>, mtfv: seq<nat>, nGroups: nat, alphaSize: nat,
                     gs: nat, ge: nat)
    returns (bt: nat)
    requires Rows(len) && Rows(rfreq) && Apart(len, rfreq) && 2 <= nGroups <= N_GROUPS && alphaSize <= MAX_ALPHA_SIZE
    requires SmallLens(RowsOf(len, nGroups, alphaSize), alphaSize)
    requires gs <= ge < |mtfv| && ge < gs + GROUP_SIZE && forall i :: 0 <= i < |mtfv| ==> mtfv[i] < alphaSize
    requires Light(RowsOf(rfreq, nGroups, alphaSize), alphaSize, gs)
    modifies set t | t in rfreq
    ensures bt < nGroups && Light(RowsOf(rfreq, nGroups, alphaSize), alphaSize, ge + 1)
    ensures CountedFor(old(RowsOf(rfreq, nGroups, alphaSize)), RowsOf(rfreq, nGroups, alphaSize), mtfv, alphaSize, bt, gs, ge + 1)
    ensures CheapestFor(old(RowsOf(len, nGroups, alphaSize)), mtfv, gs, ge, bt)
  {
    hide CodeLengths.Clamped, SmallLens, AllLengths, Cost, Times;
    bt := PickTable(RowsOf(len, nGroups, alphaSize), mtfv, gs, ge, alphaSize);
    CountGroup(rfreq[bt], mtfv, gs, ge, alphaSize);
  }

  /** Selector i names the cheapest table for the i-th fifty symbols. */
  ghost predicate Chosen(lens: seq<seq<nat>>, mtfv: seq<nat>, selector: seq<nat>, i: nat) {
    var gs := GROUP_SIZE * i;
    i < |selector| && gs < |mtfv|
    && CheapestFor(lens, mtfv, gs, if gs + GROUP_SIZE <= |mtfv| then gs + GROUP_SIZE - 1 else |mtfv| - 1, selector[i])
  }

  lemma NextCounted(counts: seq<seq<nat>>, counts': seq<seq<nat>>, before: seq<nat>, bt: nat, mtfv: seq<nat>,
                    alphaSize: nat, k: nat, hi: nat)
    requires GROUP_SIZE * k <= hi <= |mtfv| && hi <= GROUP_SIZE * k + GROUP_SIZE && k < |before|
    requires Counted(counts, before, mtfv, alphaSize, GROUP_SIZE * k)
    requires CountedFor(counts, counts', mtfv, alphaSize, bt, GROUP_SIZE * k, hi)
    ensures Counted(counts', before[k := bt], mtfv, alphaSize, hi)
  {
    hide Occurs, Times;
    var selector := before[k := bt];
    forall t, v | 0 <= t < |counts'| && 0 <= v < alphaSize ensures counts'[t][v] == Occurs(selector, mtfv, t, v, hi) {
      OccursPrefix(before, selector, mtfv, t, v, GROUP_SIZE * k, k);
      OccursGroup(selector, mtfv, t, v, k, hi);
    }
  }

  lemma ChosenKept(lens: seq<seq<nat>>, mtfv: seq<nat>, before: seq<nat>, selector: seq<nat>, k: nat, ge: nat, bt: nat)
    requires k < |before| && selector == before[k := bt] && forall i :: 0 <= i < k ==> Chosen(lens, mtfv, before, i)
    requires GROUP_SIZE * k < |mtfv| && CheapestFor(lens, mtfv, GROUP_SIZE * k, ge, bt)
    requires ge == if GROUP_SIZE * k + GROUP_SIZE <= |mtfv| then GROUP_SIZE * k + GROUP_SIZE - 1 else |mtfv| - 1
    ensures forall i :: 0 <= i <= k ==> Chosen(lens, mtfv, selector, i)
  {
    hide CheapestFor;
    forall i | 0 <= i <= k ensures Chosen(lens, mtfv, selector, i) {
      if i < k { assert Chosen(lens, mtfv, before, i); }
    }
  }

  lemma StartSelecting(selector: seq<nat>, nGroups: nat)
    ensures Selecting(selector, 0, nGroups)
  {
  }

  lemma SelectingKept(before: seq<nat>, k: nat, nGroups: nat, bt: nat)
    requires Selecting(before, k, nGroups) && k < |before| && bt < nGroups
    ensures Selecting(before[k := bt], k + 1, nGroups)
  {
  }

  /** Choose the cheapest table for every group and count its symbols. */
  method ChooseTables(len: seq<array<nat>>, rfreq: seq<array<nat>>, selector: array<nat>, mtfv: seq<nat>,
                      nGroups: nat, alphaSize: nat)
    returns (nSelectors: nat)
    requires Rows(len) && Rows(rfreq) && Apart(len, rfreq) && 2 <= nGroups <= N_GROUPS && alphaSize <= MAX_ALPHA_SIZE
    requires (forall t :: 0 <= t < |len| ==> len[t] != selector) && (forall t :: 0 <= t < |rfreq| ==> rfreq[t] != selector)
    requires SmallLens(RowsOf(len, nGroups, alphaSize), alphaSize)
    requires selector.Length == MAX_SELECTORS && (|mtfv| + GROUP_SIZE - 1) / GROUP_SIZE <= MAX_SELECTORS
    requires forall i :: 0 <= i < |mtfv| ==> mtfv[i] < alphaSize
    modifies selector, set t | t in rfreq
    ensures nSelectors == (|mtfv| + GROUP_SIZE - 1) / GROUP_SIZE && Selecting(selector[..], nSelectors, nGroups)
    ensures Light(RowsOf(rfreq, nGroups, alphaSize), alphaSize, |mtfv|) && Counted(RowsOf(rfreq, nGroups, alphaSize), selector[..], mtfv, alphaSize, |mtfv|)
    ensures forall i :: 0 <= i < nSelectors ==> Chosen(old(RowsOf(len, nGroups, alphaSize)), mtfv, selector[..], i)
  {
    hide Light, SmallLens, CheapestFor, Counted, CountedFor, Chosen, Selecting, RowsOf;
    StartSelecting(selector[..], nGroups);
    ghost var lens := RowsOf(len, nGroups, alphaSize);
    ClearCounts(rfreq, nGroups, alphaSize, selector[..], mtfv);
    nSelectors := 0;
    var gs := 0;
    while gs < |mtfv|
      invariant gs <= |mtfv| && (gs < |mtfv| ==> gs == GROUP_SIZE * nSelectors)
      invariant gs == |mtfv| ==> nSelectors == (|mtfv| + GROUP_SIZE - 1) / GROUP_SIZE
      invariant Selecting(selector[..], nSelectors, nGroups) && Light(RowsOf(rfreq, nGroups, alphaSize), alphaSize, gs)
      invariant Counted(RowsOf(rfreq, nGroups, alphaSize), selector[..], mtfv, alphaSize, gs)
      invariant RowsOf(len, nGroups, alphaSize) == lens
      invariant forall i :: 0 <= i < nSelectors ==> Chosen(lens, mtfv, selector[..], i)
      decreases |mtfv| - gs
    {
      var ge := gs + GROUP_SIZE - 1;
      if ge >= |mtfv| { ge := |mtfv| - 1; }
      ghost var counts := RowsOf(rfreq, nGroups, alphaSize);
      var bt := ChooseGroup(len, rfreq, mtfv, nGroups, alphaSize, gs, ge);
      ghost var before := selector[..];
      ChosenKept(lens, mtfv, before, before[nSelectors := bt], nSelectors, ge, bt);
      SelectingKept(before, nSelectors, nGroups, bt);
      ghost var counts' := RowsOf(rfreq, nGroups, alphaSize);
      NextCounted(counts, counts', before, bt, mtfv, alphaSize, nSelectors, ge + 1);
      selector[nSelectors] := bt;
      assert selector[..] == before[nSelectors := bt];
      assert RowsOf(rfreq, nGroups, alphaSize) == counts';
      nSelectors := nSelectors + 1;
      gs := ge + 1;
    }
  }

  ghost predicate GoodRows(len: seq<array<nat>>, nGroups: nat, alphaSize: nat)
    requires nGroups <= |len| && forall t :: 0 <= t < |len| ==> alphaSize <= len[t].Length
    reads set t | t in len
  {
    forall t :: 0 <= t < nGroups ==> GoodLengths(len[t][..alphaSize], alphaSize)
  }

  /** A best table for one row of counts. */
  method MakeTable(len: array<nat>, freq: array<nat>, alphaSize: nat, ghost counts: seq<seq<nat>>, ghost t: nat, ghost n: nat)
    requires 3 <= alphaSize <= MAX_ALPHA_SIZE && len != freq && len.Length == freq.Length == MAX_ALPHA_SIZE
    requires n <= 900001 && Light(counts, alphaSize, n) && t < |counts| && counts[t] == freq[..alphaSize]
    modifies len
    ensures GoodLengths(len[..alphaSize], alphaSize) && CodeLengths.BestWithin(counts[t], len[..alphaSize], MAX_LEN)
  {
    hide CodeLengths.Kraft, CodeLengths.Clamped, CodeLengths.BestWithin;
    assert freq[..][..alphaSize] == freq[..alphaSize];
    CodeLengths.MakeCodeLengths(len, freq[..], alphaSize, MAX_LEN);
  }

  /** Recompute the tables from the frequencies. */
  method MakeTables(len: seq<array<nat>>, rfreq: seq<array<nat>>, nGroups: nat, alphaSize: nat, ghost n: nat)
    requires Rows(len) && Rows(rfreq) && Apart(len, rfreq) && nGroups <= N_GROUPS && 3 <= alphaSize <= MAX_ALPHA_SIZE
    requires n <= 900001 && Light(RowsOf(rfreq, nGroups, alphaSize), alphaSize, n)
    modifies set t | t in len
    ensures GoodRows(len, nGroups, alphaSize)
    ensures forall t :: 0 <= t < nGroups ==>
              CodeLengths.BestWithin(old(RowsOf(rfreq, nGroups, alphaSize))[t], len[t][..alphaSize], MAX_LEN)
  {
    hide GoodLengths, CodeLengths.BestWithin, Light, RowsOf;
    ghost var counts := RowsOf(rfreq, nGroups, alphaSize);
    for t := 0 to nGroups
      invariant forall u :: 0 <= u < t ==> GoodLengths(len[u][..alphaSize], alphaSize)
      invariant forall u :: 0 <= u < t ==> CodeLengths.BestWithin(counts[u], len[u][..alphaSize], MAX_LEN)
      invariant forall u :: 0 <= u < nGroups ==> rfreq[u][..] == old(rfreq[u][..])
    {
      assert rfreq[t][..alphaSize] == rfreq[t][..][..alphaSize] == counts[t];
      MakeTable(len[t], rfreq[t], alphaSize, counts, t, n);
    }
  }

  lemma GoodRowsAreSmall(len: seq<array<nat>>, nGroups: nat, alphaSize: nat)
    requires nGroups <= |len| && forall t :: 0 <= t < |len| ==> alphaSize <= len[t].Length
    requires GoodRows(len, nGroups, alphaSize)
    ensures SmallLens(RowsOf(len, nGroups, alphaSize), alphaSize)
  {
    hide CodeLengths.Kraft;
    forall t | 0 <= t < nGroups ensures forall v :: 0 <= v < alphaSize ==> RowsOf(len, nGroups, alphaSize)[t][v] <= MAX_LEN {
      assert GoodLengths(len[t][..alphaSize], alphaSize);
    }
  }

  /** Every table is a best code, within the limit, for what it codes. */
  ghost predicate Adapted(selector: seq<nat>, lens: seq<seq<nat>>, mtfv: seq<nat>, alphaSize: nat) {
    forall t :: 0 <= t < |lens| ==> CodeLengths.BestWithin(SymbolCounts(selector, mtfv, t, alphaSize), lens[t], MAX_LEN)
  }

  lemma RowsAdapted(lens: seq<seq<nat>>, counts: seq<seq<nat>>, selector: seq<nat>, mtfv: seq<nat>, alphaSize: nat)
    requires |counts| == |lens| && Counted(counts, selector, mtfv, alphaSize, |mtfv|)
    requires forall t :: 0 <= t < |lens| ==> CodeLengths.BestWithin(counts[t], lens[t], MAX_LEN)
    ensures Adapted(selector, lens, mtfv, alphaSize)
  {
    hide CodeLengths.BestWithin, Occurs;
    forall t | 0 <= t < |lens| ensures SymbolCounts(selector, mtfv, t, alphaSize) == counts[t] {
    }
  }

  lemma {:induction false} AdaptedPrefix(selector: seq<nat>, k: nat, lens: seq<seq<nat>>, mtfv: seq<nat>, alphaSize: nat)
    requires Adapted(selector, lens, mtfv, alphaSize) && k <= |selector| && |mtfv| <= GROUP_SIZE * k
    ensures Adapted(selector[..k], lens, mtfv, alphaSize)
  {
    hide CodeLengths.BestWithin, Occurs;
    forall t | 0 <= t < |lens| ensures SymbolCounts(selector[..k], mtfv, t, alphaSize) == SymbolCounts(selector, mtfv, t, alphaSize) {
      forall v: nat ensures Occurs(selector[..k], mtfv, t, v, |mtfv|) == Occurs(selector, mtfv, t, v, |mtfv|) {
        OccursPrefix(selector, selector[..k], mtfv, t, v, |mtfv|, k);
      }
    }
  }

  /** One round: every fifty symbols take the table that was cheapest for them,
      then every table becomes a best code for the symbols it was taken for. */
  ghost predicate Round(lens: seq<seq<nat>>, selector: seq<nat>, lens': seq<seq<nat>>, mtfv: seq<nat>, alphaSize: nat) {
    && |selector| == (|mtfv| + GROUP_SIZE - 1) / GROUP_SIZE
    && (forall i :: 0 <= i < |selector| ==> Chosen(lens, mtfv, selector, i))
    && Adapted(selector, lens', mtfv, alphaSize)
  }

  /** The tables from the first to the last, and what was chosen in between. */
  datatype Plan = Plan(lens: seq<seq<seq<nat>>>, selectors: seq<seq<nat>>)

  ghost predicate Rounds(p: Plan, mtfv: seq<nat>, alphaSize: nat) {
    && |p.lens| == |p.selectors| + 1
    && (forall i :: 0 <= i < |p.selectors| ==> Round(p.lens[i], p.selectors[i], p.lens[i + 1], mtfv, alphaSize))
  }

  lemma FirstRound(lens: seq<seq<nat>>, mtfv: seq<nat>, alphaSize: nat)
    ensures Rounds(Plan([lens], []), mtfv, alphaSize)
  {
  }

  lemma NextRound(p: Plan, now: seq<seq<nat>>, selector: seq<nat>, n: nat, lens: seq<seq<nat>>, mtfv: seq<nat>, alphaSize: nat)
    requires Rounds(p, mtfv, alphaSize) && now == p.lens[|p.selectors|]
    requires n <= |selector| && n == (|mtfv| + GROUP_SIZE - 1) / GROUP_SIZE
    requires forall i :: 0 <= i < n ==> Chosen(now, mtfv, selector, i)
    requires Adapted(selector, lens, mtfv, alphaSize)
    ensures Rounds(Plan(p.lens + [lens], p.selectors + [selector[..n]]), mtfv, alphaSize)
  {
    hide Adapted, CheapestFor;
    AdaptedPrefix(selector, n, lens, mtfv, alphaSize);
    var chosen := selector[..n];
    forall i | 0 <= i < n ensures Chosen(now, mtfv, chosen, i) {
      assert Chosen(now, mtfv, selector, i);
    }
    var p' := Plan(p.lens + [lens], p.selectors + [chosen]);
    forall i | 0 <= i < |p'.selectors| ensures Round(p'.lens[i], p'.selectors[i], p'.lens[i + 1], mtfv, alphaSize) {
      if i < |p.selectors| { assert Round(p.lens[i], p.selectors[i], p.lens[i + 1], mtfv, alphaSize); }
    }
  }

  /** Four rounds: choose the tables, then adapt them to what they code. */
  method RefineTables(len: seq<array<nat>>, rfreq: seq<array<nat>>, selector: array<nat>, mtfv: seq<nat>,
                      nGroups: nat, alphaSize: nat)
    returns (nSelectors: nat, ghost p: Plan)
    requires Rows(len) && Rows(rfreq) && Apart(len, rfreq) && 2 <= nGroups <= N_GROUPS && 3 <= alphaSize <= MAX_ALPHA_SIZE
    requires (forall t :: 0 <= t < |len| ==> len[t] != selector) && (forall t :: 0 <= t < |rfreq| ==> rfreq[t] != selector)
    requires SmallLens(RowsOf(len, nGroups, alphaSize), alphaSize)
    requires selector.Length == MAX_SELECTORS && 0 < |mtfv| <= 900001
    requires forall i :: 0 <= i < |mtfv| ==> mtfv[i] < alphaSize
    modifies selector, set t | t in len, set t | t in rfreq
    ensures nSelectors == (|mtfv| + GROUP_SIZE - 1) / GROUP_SIZE && Selecting(selector[..], nSelectors, nGroups)
    ensures GoodRows(len, nGroups, alphaSize)
    ensures Rounds(p, mtfv, alphaSize) && |p.lens| == 5 && |p.selectors| == 4 && p.lens[0] == old(RowsOf(len, nGroups, alphaSize))
    ensures p.lens[4] == RowsOf(len, nGroups, alphaSize) && p.selectors[3] == selector[..nSelectors]
  {
    hide GoodLengths, SmallLens, Selecting, Adapted, Counted, Light, Chosen, RowsOf, Rounds, CodeLengths.BestWithin;
    nSelectors := 0;
    p := Plan([RowsOf(len, nGroups, alphaSize)], []);
    FirstRound(p.lens[0], mtfv, alphaSize);
    for iter := 0 to N_ITERS
      invariant SmallLens(RowsOf(len, nGroups, alphaSize), alphaSize)
      invariant iter > 0 ==> nSelectors == (|mtfv| + GROUP_SIZE - 1) / GROUP_SIZE && Selecting(selector[..], nSelectors, nGroups)
      invariant iter > 0 ==> GoodRows(len, nGroups, alphaSize)
      invariant Rounds(p, mtfv, alphaSize) && |p.lens| == iter + 1 && |p.selectors| == iter && p.lens[0] == old(RowsOf(len, nGroups, alphaSize))
      invariant p.lens[iter] == RowsOf(len, nGroups, alphaSize)
      invariant iter > 0 ==> nSelectors <= MAX_SELECTORS && p.selectors[iter - 1] == selector[..nSelectors]
    {
      nSelectors := ChooseTables(len, rfreq, selector, mtfv, nGroups, alphaSize);
      ghost var chosen, counts := selector[..], RowsOf(rfreq, nGroups, alphaSize);
      SelectingSize(chosen, nSelectors, nGroups);
      MakeTables(len, rfreq, nGroups, alphaSize, |mtfv|);
      assert selector[..] == chosen;
      GoodRowsAreSmall(len, nGroups, alphaSize);
      ghost var lens := RowsOf(len, nGroups, alphaSize);
      RowsAdapted(lens, counts, chosen, mtfv, alphaSize);
      NextRound(p, p.lens[iter], chosen, nSelectors, lens, mtfv, alphaSize);
      p := Plan(p.lens + [lens], p.selectors + [chosen[..nSelectors]]);
    }
  }

  /** The shortest and the longest of one table's lengths; assertions 3004 and 3005. */
  method LengthRange(len: seq<nat>) returns (minLen: nat, maxLen: nat)
    requires len != [] && forall i :: 0 <= i < |len| ==> 1 <= len[i] <= MAX_LEN
    ensures 1 <= minLen <= maxLen <= MAX_LEN && forall i :: 0 <= i < |len| ==> minLen <= len[i] <= maxLen
  {
    minLen, maxLen := 32, 0;
    for i := 0 to |len|
      invariant forall u :: 0 <= u < i ==> minLen <= len[u] <= maxLen
      invariant maxLen <= MAX_LEN && 1 <= minLen && (i > 0 ==> minLen <= maxLen)
    {
      if len[i] > maxLen { maxLen := len[i]; }
      if len[i] < minLen { minLen := len[i]; }
    }
  }

  /** The actual codes of all tables. */
  method AssignAll(len: seq<array<nat>>, code: seq<array<nat>>, nGroups: nat, alphaSize: nat)
    requires Rows(len) && Rows(code) && Apart(len, code) && nGroups <= N_GROUPS && 3 <= alphaSize <= MAX_ALPHA_SIZE
    requires GoodRows(len, nGroups, alphaSize)
    modifies set t | t in code
    ensures forall t :: 0 <= t < nGroups ==> code[t][..alphaSize] == Codes(len[t][..alphaSize])
  {
    hide CodeLengths.Kraft, Codes;
    for t := 0 to nGroups
      invariant forall u :: 0 <= u < t ==> code[u][..alphaSize] == Codes(len[u][..alphaSize])
    {
      assert GoodLengths(len[t][..alphaSize], alphaSize);
      var minLen, maxLen := LengthRange(len[t][..alphaSize]);
      AssignCodes(code[t], len[t][..alphaSize], minLen, maxLen);
    }
  }

  function GroupCount(nMTF: nat): (n: nat)
    ensures 2 <= n <= N_GROUPS
  {
    if nMTF < 200 then 2 else if nMTF < 600 then 3 else if nMTF < 1200 then 4 else if nMTF < 2400 then 5 else 6
  }

  method NewRows() returns (a: seq<array<nat>>)
    ensures Rows(a) && forall t :: 0 <= t < |a| ==> fresh(a[t])
  {
    var a0, a1, a2 := new nat[MAX_ALPHA_SIZE], new nat[MAX_ALPHA_SIZE], new nat[MAX_ALPHA_SIZE];
    var a3, a4, a5 := new nat[MAX_ALPHA_SIZE], new nat[MAX_ALPHA_SIZE], new nat[MAX_ALPHA_SIZE];
    a := [a0, a1, a2, a3, a4, a5];
  }

  lemma SelectingSize(selector: seq<nat>, nSelectors: nat, nGroups: nat)
    requires Selecting(selector, nSelectors, nGroups)
    ensures nSelectors <= |selector|
  {
  }

  lemma CodingIsGood(len: seq<array<nat>>, code: seq<array<nat>>, selector: seq<nat>, nSelectors: nat,
                     nGroups: nat, alphaSize: nat, nMTF: nat)
    requires Rows(len) && Rows(code) && 2 <= nGroups <= N_GROUPS && alphaSize <= MAX_ALPHA_SIZE && 0 < nMTF <= 900001
    requires nSelectors == (nMTF + GROUP_SIZE - 1) / GROUP_SIZE && Selecting(selector, nSelectors, nGroups)
    requires GoodRows(len, nGroups, alphaSize)
    requires forall t :: 0 <= t < nGroups ==> code[t][..alphaSize] == Codes(len[t][..alphaSize])
    ensures var c := Coding(selector[..nSelectors], RowsOf(len, nGroups, alphaSize));
            GoodCoding(c, alphaSize, nMTF) && TablesHold(c, len, code, alphaSize)
  {
    hide GoodLengths, Codes;
  }

  /** How a coding comes about: one table for every stretch of the alphabet, then
      four rounds. */
  ghost predicate Planned(p: Plan, c: Coding, mtfFreq: seq<nat>, mtfv: seq<nat>, alphaSize: nat) {
    && Rounds(p, mtfv, alphaSize) && |p.selectors| == 4
    && |c.lens| == |p.lens[0]| == GroupCount(|mtfv|)
    && (exists cuts :: Split(p.lens[0], mtfFreq, cuts, |p.lens[0]|))
    && c == Coding(p.selectors[3], p.lens[4])
  }

  lemma PlanIs(p: Plan, c: Coding, mtfFreq: seq<nat>, mtfv: seq<nat>, alphaSize: nat, cuts: seq<nat>)
    requires Rounds(p, mtfv, alphaSize) && |p.lens| == 5 && |p.selectors| == 4
    requires |c.lens| == |p.lens[0]| == GroupCount(|mtfv|) && c == Coding(p.selectors[3], p.lens[4])
    requires Split(p.lens[0], mtfFreq, cuts, |p.lens[0]|)
    ensures Planned(p, c, mtfFreq, mtfv, alphaSize)
  {
    hide Rounds, Split;
    assert |p.lens[0]| > 0;
    PlanSize(p, mtfv, alphaSize);
  }

  lemma PlanSize(p: Plan, mtfv: seq<nat>, alphaSize: nat)
    requires Rounds(p, mtfv, alphaSize)
    ensures |p.lens| == |p.selectors| + 1
  {
  }

  /** Everything chosen: a good coding, and the arrays that hold it. */
  method PrepareCoding(len: seq<array<nat>>, code: seq<array<nat>>, mtfv: seq<nat>, mtfFreq: seq<nat>, alphaSize: nat)
    returns (c: Coding, ghost p: Plan)
    requires Rows(len) && Rows(code) && Apart(len, code)
    requires 3 <= alphaSize == |mtfFreq| <= MAX_ALPHA_SIZE && 0 < |mtfv| <= 900001
    requires forall i :: 0 <= i < |mtfv| ==> mtfv[i] < alphaSize
    requires Tally(mtfFreq, mtfv, alphaSize)
    modifies set t | t in len, set t | t in code
    ensures GoodCoding(c, alphaSize, |mtfv|) && TablesHold(c, len, code, alphaSize)
    ensures Planned(p, c, mtfFreq, mtfv, alphaSize)
  {
    hide Rounds, RowsOf, Adapted, Chosen, GoodLengths, SmallLens, Codes, Sum, Tally, GoodCoding, TablesHold, Selecting, GoodRows, Split, Planned;
    var nGroups := GroupCount(|mtfv|);
    TallySum(mtfFreq, mtfv, alphaSize);
    ghost var cuts := InitialTables(len, mtfFreq, nGroups, alphaSize, |mtfv|);
    var rfreq := NewRows();
    var selector := new nat[MAX_SELECTORS];
    var nSelectors;
    nSelectors, p := RefineTables(len, rfreq, selector, mtfv, nGroups, alphaSize);
    AssignAll(len, code, nGroups, alphaSize);
    CodingIsGood(len, code, selector[..], nSelectors, nGroups, alphaSize, |mtfv|);
    SelectingSize(selector[..], nSelectors, nGroups);
    c := Coding(selector[..][..nSelectors], RowsOf(len, nGroups, alphaSize));
    PlanIs(p, c, mtfFreq, mtfv, alphaSize, cuts);
  }

  /** Send all tables. */
  method SendTables(w: BitStream, lens: seq<seq<nat>>, ghost c: Coding, ghost alphaSize: nat, ghost nMTF: nat)
    requires w.Valid() && lens == c.lens && GoodCoding(c, alphaSize, nMTF) && alphaSize > 0
    requires forall t :: 0 <= t < |lens| ==> lens[t] != []
    modifies w
    ensures w.Valid() && w.Sent() == old(w.Sent()) + TablesBits(lens)
  {
    hide TableBits, CodeLengths.Kraft, BitStream.Valid, BitStream.Sent;
    ghost var plan := w.Sent() + TablesBits(lens);
    assert lens[0..] == lens;
    for t := 0 to |lens|
      invariant w.Valid() && w.Sent() + TablesBits(lens[t..]) == plan
    {
      assert GoodLengths(c.lens[t], alphaSize);
      assert lens[t..][1..] == lens[t + 1..];
      Onward(w.Sent(), TableBits(lens[t]), TablesBits(lens[t + 1..]), plan);
      SendTable(w, lens[t]);
    }
    assert lens[|lens|..] == [];
    AllSent(w.Sent(), plan);
  }

  /** sendMTFValues: a good coding, its tables best for the symbols they code,
      and exactly its image on the wire. */
  method SendMTFValues(w: BitStream, inUse: seq<bool>, mtfv: seq<nat>, mtfFreq: seq<nat>, nInUse: nat)
    returns (c: Coding, ghost p: Plan)
    requires w.Valid() && |inUse| == 256 && 1 <= nInUse <= 256 && |mtfFreq| == nInUse + 2
    requires 0 < |mtfv| <= 900001 && forall i :: 0 <= i < |mtfv| ==> mtfv[i] < nInUse + 2
    requires Tally(mtfFreq, mtfv, nInUse + 2)
    modifies w
    ensures GoodCoding(c, nInUse + 2, |mtfv|) && Codable(c, mtfv) && Planned(p, c, mtfFreq, mtfv, nInUse + 2)
    ensures AllIn(c.selectors, Iota(|c.lens|))
    ensures forall t :: 0 <= t < |c.lens| ==> c.lens[t] != []
    ensures w.Valid() && w.Sent() == old(w.Sent()) + BodyBits(inUse, c, mtfv)
  {
    hide GoodLengths, Codes, Tally, BitStream.Valid, BitStream.Sent, HeadFrom, RowsFrom, ToBits, UnaryAll, Ranks, TablesBits,
      SymbolBits, Codable, TablesHold, Planned;
    var alphaSize := nInUse + 2;
    var len := NewRows();
    var code := NewRows();
    c, p := PrepareCoding(len, code, mtfv, mtfFreq, alphaSize);
    CodingCovers(c, alphaSize, mtfv);
    SelectorsInList(c, alphaSize, |mtfv|);
    ghost var sent := w.Sent();
    var selectorMtf := RankSelectors(c.selectors, |c.lens|);
    SendMap(w, inUse);
    SendSelectors(w, |c.lens|, selectorMtf);
    SendTables(w, c.lens, c, alphaSize, |mtfv|);
    var selCtr := SendSymbols(w, len, code, c.selectors, mtfv, c, alphaSize);
    assert selCtr == |c.selectors|;
    Assemble(sent, HeadFrom(inUse, 0), RowsFrom(inUse, 0), ToBits(|c.lens|, 3), ToBits(|c.selectors|, 15),
             UnaryAll(selectorMtf), TablesBits(c.lens), SymbolBits(c, mtfv, 0));
  }

  lemma Assemble(s: Bits, a: Bits, b: Bits, c: Bits, d: Bits, e: Bits, f: Bits, g: Bits)
    ensures s + a + b + c + d + e + f + g == s + (a + (b + (c + (d + (e + (f + g))))))
  {
  }
}
