/** What BZ2_decompress means: a machine that stops wherever it needs bits. Each
    constructor of State is one `case` label (or a family of them) and carries
    exactly what is live across it; how the fields and the save area of the
    DState hold that is the matter of BlockReader. */
module DecoderMachine {
  import opened Arith
  import opened Bits
  import opened CountingSort
  import opened Rotations
  import opened MoveToFront
  import opened GenerateMtf
  import opened CanonicalCode

  /** Return values other than BZ_OK. Undefined: the C code would read a table
      entry that no code length filled in. */
  datatype ReturnCode = DataErrorMagic | DataError | StreamEnd(combined: nat) | Undefined

  type Len = n: nat | 1 <= n <= 20 witness 1

  datatype Head = Head(level: nat, crc: nat, randomised: bool, origPtr: nat)

  /** What the block's symbols are decoded with. */
  datatype Tables = Tables(inUse: seq<bool>, selector: seq<nat>, len: seq<seq<Len>>)

  /** Progress through the symbols. */
  datatype Work = Work(groupNo: int, groupPos: nat, list: seq<nat>, bytes: Block, unzftab: seq<nat>)

  /** Which of the three GET_MTF_VALs is waiting. */
  datatype Goal = AnySymbol | RunDigit(es: int, n: nat)

  datatype State =
    | Magic(k: nat)
    | Level
    | BlkHdr(level: nat, k: nat)
    | Bcrc(level: nat, k: nat, crc: nat)
    | RandBit(level: nat, crc: nat)
    | OrigPtr(h: Head, k: nat)
    | Mapping1(h: Head, inUse16: seq<bool>)
    | Mapping2(h: Head, inUse16: seq<bool>, inUse: seq<bool>, j: nat)
    | Selector1(h: Head, inUse: seq<bool>)
    | Selector2(h: Head, inUse: seq<bool>, nGroups: nat)
    | Selector3(h: Head, inUse: seq<bool>, nGroups: nat, nSelectors: nat, ranks: seq<nat>, j: nat)
    | Coding1(h: Head, inUse: seq<bool>, nGroups: nat, selector: seq<nat>, len: seq<seq<Len>>)
    | Coding2(h: Head, inUse: seq<bool>, nGroups: nat, selector: seq<nat>, len: seq<seq<Len>>, row: seq<Len>, curr: Len)
    | Coding3(h: Head, inUse: seq<bool>, nGroups: nat, selector: seq<nat>, len: seq<seq<Len>>, row: seq<Len>, curr: Len)
    | MtfFirst(h: Head, t: Tables, w: Work, goal: Goal, zn: Pos)
    | MtfNext(h: Head, t: Tables, w: Work, goal: Goal, zn: Pos, zvec: nat)
    | Output(h: Head, bytes: Block, unzftab: seq<nat>)
    | EndHdr(k: nat)
    | Ccrc(k: nat, crc: nat)
    | Stop(code: ReturnCode)

  type Pos = n: nat | 1 <= n witness 1

  predicate Reads(s: State) { !s.Output? && !s.Stop? }

  /** How many bits the suspended GET_BITS asks for. */
  function Need(s: State): (n: Pos)
  {
    match s
    case RandBit(_, _) => 1
    case Mapping1(_, _) => 1
    case Mapping2(_, _, _, _) => 1
    case Selector1(_, _) => 3
    case Selector2(_, _, _) => 15
    case Selector3(_, _, _, _, _, _) => 1
    case Coding1(_, _, _, _, _) => 5
    case Coding2(_, _, _, _, _, _, _) => 1
    case Coding3(_, _, _, _, _, _, _) => 1
    case MtfFirst(_, _, _, _, zn) => zn
    case MtfNext(_, _, _, _, _, _) => 1
    case _ => 8
  }

  // ---------- Mapping tables ----------

  /** The next of the sixteen rows at or after i that is in use. */
  function NextRow(inUse16: seq<bool>, i: nat): (r: nat)
    requires i <= |inUse16|
    ensures i <= r <= |inUse16| && (r < |inUse16| ==> inUse16[r])
    ensures forall k :: i <= k < r ==> !inUse16[k]
    decreases |inUse16| - i
  {
    if i == |inUse16| || inUse16[i] then i else NextRow(inUse16, i + 1)
  }

  function Nothing(n: nat): (r: seq<bool>)
    ensures |r| == n && forall i :: 0 <= i < n ==> !r[i]
  {
    seq(n, _ => false)
  }

  /** inUse is filled row by row; unused rows stay clear. */
  function EnterRow(h: Head, inUse16: seq<bool>, inUse: seq<bool>): State {
    var i := |inUse| / 16;
    var r := if i <= |inUse16| then NextRow(inUse16, i) else i;
    var filled := inUse + Nothing(16 * (r - i));
    if r < |inUse16| then Mapping2(h, inUse16, filled, 0)
    else if |Used(filled, |filled|)| == 0 then Stop(DataError)
    else Selector1(h, filled)
  }

  // ---------- Selectors ----------

  /** Undo the move-to-front of the selectors. */
  function Unrank(ranks: seq<nat>, pos: seq<nat>): (r: seq<nat>)
    requires forall i :: 0 <= i < |ranks| ==> ranks[i] < |pos|
    ensures |r| == |ranks|
    decreases |ranks|
  {
    if ranks == [] then [] else [pos[ranks[0]]] + Unrank(ranks[1..], MoveFront(pos, ranks[0]))
  }

  // ---------- Code tables ----------

  function MinLen(len: seq<Len>): (m: Pos)
    ensures forall i :: 0 <= i < |len| ==> m <= len[i]
    ensures m == 32 || m in len
  {
    if len == [] then 32
    else
      var m := MinLen(len[..|len| - 1]);
      if len[|len| - 1] < m then len[|len| - 1] else m
  }

  function MaxLen(len: seq<Len>): (m: nat)
    ensures forall i :: 0 <= i < |len| ==> len[i] <= m
    ensures m == 0 || m in len
  {
    if len == [] then 0
    else
      var m := MaxLen(len[..|len| - 1]);
      if len[|len| - 1] > m then len[|len| - 1] else m
  }

  /** limit, base and perm as BZ2_hbCreateDecodeTables leaves them. */
  function LimitFor(len: seq<Len>, n: nat): int {
    if n <= MaxLen(len) then Limit(len, n) else 0
  }

  function BaseFor(len: seq<Len>, n: nat): int {
    if n <= MaxLen(len) then Base(len, n) else |len|
  }

  function PermFor(len: seq<Len>): seq<nat> { StableOrder(len, MaxLen(len) + 1) }

  // ---------- Symbols ----------

  /** The start of GET_MTF_VAL: perhaps a new group, then the shortest code. */
  function BeginSymbol(h: Head, t: Tables, w: Work, goal: Goal): State {
    var w' := if w.groupPos == 0 then w.(groupNo := w.groupNo + 1, groupPos := 50) else w;
    if !(0 <= w'.groupNo < |t.selector|) then Stop(DataError)
    else if t.selector[w'.groupNo] >= |t.len| then Stop(Undefined)
    else MtfFirst(h, t, w'.(groupPos := w'.groupPos - 1), goal, MinLen(t.len[t.selector[w'.groupNo]]))
  }

  /** The loop of GET_MTF_VAL with zn bits read. */
  function TrySymbol(h: Head, t: Tables, w: Work, goal: Goal, zn: Pos, zvec: nat): State {
    if zn > 20 then Stop(DataError)
    else if !(0 <= w.groupNo < |t.selector|) || t.selector[w.groupNo] >= |t.len| then Stop(Undefined)
    else
      var len := t.len[t.selector[w.groupNo]];
      if zvec > LimitFor(len, zn) then MtfNext(h, t, w, goal, zn + 1, zvec)
      else
        var k := zvec - BaseFor(len, zn);
        if k < 0 || k >= MAX_ALPHA_SIZE then Stop(DataError)
        else if k >= |PermFor(len)| then Stop(Undefined)
        else GotSymbol(h, t, w, goal, PermFor(len)[k])
  }

  function Unseq(t: Tables, v: nat): Byte
  {
    if |t.inUse| <= 256 && v < |Used(t.inUse, |t.inUse|)| then
      UsedInUse(t.inUse, |t.inUse|, v);
      Used(t.inUse, |t.inUse|)[v]
    else 0
  }

  function Bump(unzftab: seq<nat>, c: nat, n: nat): (r: seq<nat>)
    ensures |r| == |unzftab|
  {
    if c < |unzftab| then unzftab[c := unzftab[c] + n] else unzftab
  }

  function Front(w: Work): nat { if w.list == [] then 0 else w.list[0] }

  /** A symbol has arrived. */
  function GotSymbol(h: Head, t: Tables, w: Work, goal: Goal, sym: nat): State {
    match goal
    case AnySymbol => NextSymbol(h, t, w, sym)
    case RunDigit(es, n) => if sym <= RUNB then TakeDigit(h, t, w, es, n, sym) else EndRun(h, t, w, es, sym)
  }

  /** The top of the symbol loop. */
  function NextSymbol(h: Head, t: Tables, w: Work, sym: nat): State {
    if sym == |Used(t.inUse, |t.inUse|)| + 1 then Finish(h, w)
    else if sym <= RUNB then TakeDigit(h, t, w, -1, 1, sym)
    else TakeByte(h, t, w, sym - 1)
  }

  function TakeDigit(h: Head, t: Tables, w: Work, es: int, n: nat, digit: nat): State {
    if n >= 2 * 1024 * 1024 then Stop(DataError)
    else BeginSymbol(h, t, w, RunDigit(es + (digit + 1) * n, n * 2))
  }

  function EndRun(h: Head, t: Tables, w: Work, es: int, sym: nat): State {
    var uc := Unseq(t, Front(w));
    var k: nat := if es + 1 < 0 then 0 else es + 1;
    if |w.bytes| + k > 100000 * h.level then Stop(DataError)
    else NextSymbol(h, t, w.(bytes := w.bytes + Repeat(uc, k), unzftab := Bump(w.unzftab, uc, k)), sym)
  }

  function TakeByte(h: Head, t: Tables, w: Work, nn: nat): State {
    if |w.bytes| >= 100000 * h.level then Stop(DataError)
    else if nn >= |w.list| then Stop(Undefined)
    else
      var uc := Unseq(t, w.list[nn]);
      BeginSymbol(h, t, w.(list := MoveFront(w.list, nn), bytes := w.bytes + [uc], unzftab := Bump(w.unzftab, uc, 1)),
                  AnySymbol)
  }

  // ---------- The end of a block ----------

  /** cftab[k] as summed up from unzftab. */
  function Cftab(unzftab: seq<nat>, k: nat): nat
    requires k <= |unzftab|
  {
    if k == 0 then 0 else Cftab(unzftab, k - 1) + unzftab[k - 1]
  }

  /** The checks on unzftab and cftab. */
  predicate InRange(unzftab: seq<nat>, nblock: nat) {
    && (forall i :: 0 <= i < |unzftab| ==> unzftab[i] <= nblock)
    && (forall k :: 0 <= k <= |unzftab| ==> Cftab(unzftab, k) <= nblock)
  }

  function Finish(h: Head, w: Work): State {
    if h.origPtr >= |w.bytes| then Stop(DataError)
    else if !InRange(w.unzftab, |w.bytes|) then Stop(DataError)
    else Output(h, w.bytes, w.unzftab)
  }

  // ---------- The machine ----------

  function StartWork(): Work {
    Work(-1, 0, Iota(256), [], seq(256, _ => 0))
  }

  function AfterMagic(k: nat, v: nat): State {
    if v != (if k == 1 then 0x42 else if k == 2 then 0x5A else 0x68) then Stop(DataErrorMagic)
    else if k == 3 then Level
    else Magic(k + 1)
  }

  function BlockMagic(k: nat): nat {
    if k == 1 then 0x31 else if k == 2 then 0x41 else if k == 3 then 0x59
    else if k == 4 then 0x26 else if k == 5 then 0x53 else 0x59
  }

  function AfterBlkHdr(level: nat, k: nat, v: nat): State {
    if k == 1 && v == 0x17 then EndHdr(2)
    else if v != BlockMagic(k) then Stop(DataError)
    else if k >= 6 then Bcrc(level, 1, 0)
    else BlkHdr(level, k + 1)
  }

  function AfterOrigPtr(h: Head, k: nat, v: nat): State {
    var h' := h.(origPtr := h.origPtr * 256 + v);
    if k < 3 then OrigPtr(h', k + 1)
    else if h'.origPtr > 10 + 100000 * h.level then Stop(DataError)
    else Mapping1(h', [])
  }

  function AfterMapping1(h: Head, inUse16: seq<bool>, v: nat): State {
    var s := inUse16 + [v == 1];
    if |s| < 16 then Mapping1(h, s) else EnterRow(h, s, [])
  }

  function AfterMapping2(h: Head, inUse16: seq<bool>, inUse: seq<bool>, j: nat, v: nat): State {
    if j + 1 < 16 then Mapping2(h, inUse16, inUse + [v == 1], j + 1)
    else EnterRow(h, inUse16, inUse + [v == 1])
  }

  function AfterSelector3(h: Head, inUse: seq<bool>, nGroups: nat, nSelectors: nat, ranks: seq<nat>, j: nat, v: nat): State {
    if v != 0 then
      if j + 1 >= nGroups then Stop(DataError) else Selector3(h, inUse, nGroups, nSelectors, ranks, j + 1)
    else if |ranks| + 1 < nSelectors then Selector3(h, inUse, nGroups, nSelectors, ranks + [j], 0)
    else if forall i :: 0 <= i < |ranks + [j]| ==> (ranks + [j])[i] < nGroups then
      Coding1(h, inUse, nGroups, Unrank(ranks + [j], Iota(nGroups)), [])
    else Stop(Undefined)
  }

  /** The bounds check at the top of the delta loop. */
  function CheckLength(h: Head, inUse: seq<bool>, nGroups: nat, selector: seq<nat>, len: seq<seq<Len>>, row: seq<Len>, curr: int): State {
    if curr < 1 || curr > 20 then Stop(DataError) else Coding2(h, inUse, nGroups, selector, len, row, curr)
  }

  function AfterCoding2(h: Head, inUse: seq<bool>, nGroups: nat, selector: seq<nat>, len: seq<seq<Len>>, row: seq<Len>, curr: Len, v: nat): State {
    var row' := row + [curr];
    if v != 0 then Coding3(h, inUse, nGroups, selector, len, row, curr)
    else if |row'| < |Used(inUse, |inUse|)| + 2 then Coding2(h, inUse, nGroups, selector, len, row', curr)
    else if |len| + 1 < nGroups then Coding1(h, inUse, nGroups, selector, len + [row'])
    else BeginSymbol(h, Tables(inUse, selector, len + [row']), StartWork(), AnySymbol)
  }

  function AfterEndHdr(k: nat, v: nat): State {
    var want := if k == 2 then 0x72 else if k == 3 then 0x45 else if k == 4 then 0x38 else if k == 5 then 0x50 else 0x90;
    if v != want then Stop(DataError) else if k >= 6 then Ccrc(1, 0) else EndHdr(k + 1)
  }

  /** From one suspension point to the next, with the bits asked for. */
  function Step(s: State, v: nat): State
    requires Reads(s)
  {
    match s
    case Magic(k) => AfterMagic(k, v)
    case Level => if v < 0x31 || v > 0x39 then Stop(DataErrorMagic) else BlkHdr(v - 0x30, 1)
    case BlkHdr(level, k) => AfterBlkHdr(level, k, v)
    case Bcrc(level, k, crc) => if k >= 4 then RandBit(level, crc * 256 + v) else Bcrc(level, k + 1, crc * 256 + v)
    case RandBit(level, crc) => OrigPtr(Head(level, crc, v == 1, 0), 1)
    case OrigPtr(h, k) => AfterOrigPtr(h, k, v)
    case Mapping1(h, inUse16) => AfterMapping1(h, inUse16, v)
    case Mapping2(h, inUse16, inUse, j) => AfterMapping2(h, inUse16, inUse, j, v)
    case Selector1(h, inUse) => if v < 2 || v > 6 then Stop(DataError) else Selector2(h, inUse, v)
    case Selector2(h, inUse, nGroups) => if v < 1 then Stop(DataError) else Selector3(h, inUse, nGroups, v, [], 0)
    case Selector3(h, inUse, nGroups, nSelectors, ranks, j) => AfterSelector3(h, inUse, nGroups, nSelectors, ranks, j, v)
    case Coding1(h, inUse, nGroups, selector, len) => CheckLength(h, inUse, nGroups, selector, len, [], v)
    case Coding2(h, inUse, nGroups, selector, len, row, curr) => AfterCoding2(h, inUse, nGroups, selector, len, row, curr, v)
    case Coding3(h, inUse, nGroups, selector, len, row, curr) =>
      CheckLength(h, inUse, nGroups, selector, len, row, if v == 0 then curr + 1 else curr - 1)
    case MtfFirst(h, t, w, goal, zn) => TrySymbol(h, t, w, goal, zn, v)
    case MtfNext(h, t, w, goal, zn, zvec) => TrySymbol(h, t, w, goal, zn, zvec * 2 + v)
    case EndHdr(k) => AfterEndHdr(k, v)
    case Ccrc(k, crc) => if k >= 4 then Stop(StreamEnd(crc * 256 + v)) else Ccrc(k + 1, crc * 256 + v)
  }

  /** Run until the machine stops, delivers, or lacks input; what is left. */
  function Advance(s: State, bits: Bits): (r: (State, Bits))
    ensures |r.1| <= |bits| && (Reads(s) && !Reads(r.0) ==> |r.1| < |bits|)
    decreases |bits|
  {
    if !Reads(s) || |bits| < Need(s) then (s, bits)
    else Advance(Step(s, FromBits(bits[..Need(s)])), bits[Need(s)..])
  }
}
