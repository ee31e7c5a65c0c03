/** The decoder's two-level move-to-front list: 256 entries in sixteen windows
    of sixteen that slide down a 4096-cell array (decompress.c, 358-370 and
    423-475). Every operation refines the one on a plain list. */
module TwoLevelMtf {
  import opened Arith
  import opened MoveToFront

  const MTFA_SIZE := 4096
  const MTFL_SIZE := 16

  /** Windows lie in order, without overlap, inside the array. */
  ghost predicate Windows(base: seq<nat>) {
    && |base| == 16
    && (forall w :: 0 <= w < 16 ==> base[0] + 16 * w <= base[w] <= MTFA_SIZE - 16 * (16 - w))
    && (forall v, w :: 0 <= v < w < 16 ==> base[v] + 16 * (w - v) <= base[w])
  }

  /** The list the windows stand for. */
  ghost function Listed(mtfa: seq<nat>, base: seq<nat>): (r: seq<nat>)
    requires Windows(base) && |mtfa| == MTFA_SIZE
    ensures |r| == 256
  {
    seq(256, i requires 0 <= i < 256 =>
      mtfa[base[i / 16] + i % 16])
  }

  lemma ListedAt(mtfa: seq<nat>, base: seq<nat>, w: nat, o: nat)
    requires Windows(base) && |mtfa| == MTFA_SIZE && w < 16 && o < 16
    ensures base[w] + o < MTFA_SIZE && Listed(mtfa, base)[16 * w + o] == mtfa[base[w] + o]
  {
    assert (16 * w + o) / 16 == w && (16 * w + o) % 16 == o;
  }

  /** The cells of (low, high] each hold their former lower neighbour. */
  ghost function ShiftUp(before: seq<nat>, low: nat, high: nat): (r: seq<nat>)
    ensures |r| == |before|
  {
    seq(|before|, x requires 0 <= x < |before| => if low < x <= high then before[x - 1] else before[x])
  }

  lemma ShiftUpStep(before: seq<nat>, low: nat, high: nat)
    requires 0 < low <= high < |before|
    ensures ShiftUp(before, low, high)[low - 1] == before[low - 1]
    ensures ShiftUp(before, low - 1, high) == ShiftUp(before, low, high)[low := before[low - 1]]
    ensures ShiftUp(before, high, high) == before
  {
  }

  lemma MoveFrontAt(list: seq<nat>, k: nat, i: nat)
    requires k < |list| && i < |list|
    ensures MoveFront(list, k)[i] == if i == 0 then list[k] else if i <= k then list[i - 1] else list[i]
  {
  }

  // ---------- The far move: one cell handed down per window ----------

  /** Where the cell handed into window v lands. */
  ghost function Dest(base: seq<nat>, top: nat, v: nat): nat
    requires Windows(base) && 1 <= v <= top < 16
  {
    if v == top then base[v] else base[v] - 1
  }

  /** The array once windows top, top - 1, .., low + 1 have received their cell. */
  ghost function Hand(m: seq<nat>, base: seq<nat>, top: nat, low: nat): (r: seq<nat>)
    requires |m| == MTFA_SIZE && Windows(base) && low <= top < 16
    ensures |r| == MTFA_SIZE
    decreases top - low
  {
    if low == top then m else
      var p := Hand(m, base, top, low + 1);
      p[Dest(base, top, low + 1) := p[base[low] + 15]]
  }

  lemma {:induction false} HandSpares(m: seq<nat>, base: seq<nat>, top: nat, low: nat, x: nat)
    requires |m| == MTFA_SIZE && Windows(base) && low <= top < 16 && x < MTFA_SIZE
    requires forall v :: low < v <= top ==> x != Dest(base, top, v)
    ensures Hand(m, base, top, low)[x] == m[x]
    decreases top - low
  {
    if low < top {
      HandSpares(m, base, top, low + 1, x);
    }
  }

  /** No cell handed into a later window overwrites window w or its top cell. */
  lemma DestOutside(base: seq<nat>, top: nat, w: nat, o: nat, v: nat)
    requires Windows(base) && w < 16 && 1 <= v <= top < 16 && o < 16
    requires w < v || (w == v && (v < top || o > 0)) || v < w
    ensures Dest(base, top, v) != base[w] + o || (o == 15 && v == w + 1)
  {
  }

  lemma {:induction false} HandDest(m: seq<nat>, base: seq<nat>, top: nat, low: nat, v: nat)
    requires |m| == MTFA_SIZE && Windows(base) && low < v <= top < 16
    ensures base[v - 1] + 15 < MTFA_SIZE && Dest(base, top, v) < MTFA_SIZE
    ensures Hand(m, base, top, low)[Dest(base, top, v)] == m[base[v - 1] + 15]
    decreases top - low
  {
    if v == low + 1 {
      forall u | v < u <= top ensures base[low] + 15 != Dest(base, top, u) {
        DestOutside(base, top, low, 15, u);
      }
      HandSpares(m, base, top, v, base[low] + 15);
    } else {
      HandDest(m, base, top, low + 1, v);
    }
  }

  ghost function Slid(base: seq<nat>, top: nat): (r: seq<nat>)
    requires Windows(base) && top < 16 && base[0] > 0
    ensures |r| == 16 && Windows(r) && forall w :: 0 <= w < 16 ==> r[w] == if w < top then base[w] - 1 else base[w]
  {
    seq(16, w requires 0 <= w < 16 => if w < top then base[w] - 1 else base[w])
  }

  /** The array after a far move of entry 16 * top + off. */
  ghost function Far(before: seq<nat>, base: seq<nat>, top: nat, off: nat): (r: seq<nat>)
    requires |before| == MTFA_SIZE && Windows(base) && 1 <= top < 16 && off < 16 && base[0] > 0
    ensures |r| == MTFA_SIZE
  {
    Hand(ShiftUp(before, base[top], base[top] + off), base, top, 0)[base[0] - 1 := before[base[top] + off]]
  }

  /** The cell handed into a window was the last one of the window below. */
  lemma FarHanded(before: seq<nat>, base: seq<nat>, top: nat, off: nat, w: nat)
    requires |before| == MTFA_SIZE && Windows(base) && 1 <= w <= top < 16 && off < 16 && base[0] > 0
    ensures Far(before, base, top, off)[Dest(base, top, w)] == before[base[w - 1] + 15]
  {
    hide Hand, ShiftUp;
    HandDest(ShiftUp(before, base[top], base[top] + off), base, top, 0, w);
    ShiftUpAt(before, base[top], base[top] + off, base[w - 1] + 15);
  }

  lemma ShiftUpAt(before: seq<nat>, low: nat, high: nat, x: nat)
    requires x < |before|
    ensures ShiftUp(before, low, high)[x] == if low < x <= high then before[x - 1] else before[x]
  {
  }

  /** Cells that receive nothing only see the shift inside window top. */
  lemma FarSpared(before: seq<nat>, base: seq<nat>, top: nat, off: nat, w: nat, o: nat)
    requires |before| == MTFA_SIZE && Windows(base) && 1 <= top < 16 && off < 16 && base[0] > 0
    requires w < 16 && o < 16 && (w < top ==> o < 15) && (w == top ==> o > 0)
    ensures Far(before, base, top, off)[base[w] + o]
         == if w == top && o <= off then before[base[w] + o - 1] else before[base[w] + o]
  {
    hide Hand, ShiftUp;
    var m, x := ShiftUp(before, base[top], base[top] + off), base[w] + o;
    forall v | 0 < v <= top ensures x != Dest(base, top, v) {
      DestOutside(base, top, w, o, v);
    }
    HandSpares(m, base, top, 0, x);
    ShiftUpAt(before, base[top], base[top] + off, x);
  }

  lemma FarCell(before: seq<nat>, base: seq<nat>, top: nat, off: nat, w: nat, o: nat)
    requires |before| == MTFA_SIZE && Windows(base) && 1 <= top < 16 && off < 16 && base[0] > 0
    requires w < 16 && o < 16
    ensures Listed(Far(before, base, top, off), Slid(base, top))[16 * w + o]
         == MoveFront(Listed(before, base), 16 * top + off)[16 * w + o]
  {
    hide Listed, MoveFront, Far;
    var done := Far(before, base, top, off);
    MoveFrontAt(Listed(before, base), 16 * top + off, 16 * w + o);
    ListedAt(done, Slid(base, top), w, o);
    ListedAt(before, base, w, o);
    ListedAt(before, base, top, off);
    if o > 0 {
      ListedAt(before, base, w, o - 1);
      FarSpared(before, base, top, off, w, if w < top then o - 1 else o);
    } else if w == 0 {
      FarFront(before, base, top, off);
    } else {
      ListedAt(before, base, w - 1, 15);
      if w <= top {
        FarHanded(before, base, top, off, w);
      } else {
        FarSpared(before, base, top, off, w, 0);
      }
    }
  }

  lemma FarFront(before: seq<nat>, base: seq<nat>, top: nat, off: nat)
    requires |before| == MTFA_SIZE && Windows(base) && 1 <= top < 16 && off < 16 && base[0] > 0
    ensures Far(before, base, top, off)[base[0] - 1] == before[base[top] + off]
  {
    hide Hand, ShiftUp;
  }

  lemma FarIsMoveFront(before: seq<nat>, base: seq<nat>, top: nat, off: nat)
    requires |before| == MTFA_SIZE && Windows(base) && 1 <= top < 16 && off < 16 && base[0] > 0
    ensures Listed(Far(before, base, top, off), Slid(base, top))
         == MoveFront(Listed(before, base), 16 * top + off)
  {
    hide Listed, MoveFront, Far, Windows;
    var now, moved := Listed(Far(before, base, top, off), Slid(base, top)),
                      MoveFront(Listed(before, base), 16 * top + off);
    forall i | 0 <= i < 256 ensures now[i] == moved[i] {
      FarCell(before, base, top, off, i / 16, i % 16);
    }
  }

  class MtfList {
    const mtfa: array<nat>
    const mtfbase: array<nat>

    ghost predicate Valid()
      reads this, mtfa, mtfbase
    {
      && mtfa.Length == MTFA_SIZE && mtfbase.Length == 16 && mtfa != mtfbase
      && Windows(mtfbase[..]) && mtfbase[0] > 0
    }

    ghost function List(): (r: seq<nat>)
      requires Valid()
      reads this, mtfa, mtfbase
    {
      Listed(mtfa[..], mtfbase[..])
    }

    constructor ()
      ensures Valid() && fresh(mtfa) && fresh(mtfbase)
      ensures List() == Iota(256)
    {
      mtfa := new nat[MTFA_SIZE];
      mtfbase := new nat[16];
      new;
      Init();
    }

    /** MTF init: the identity list at the top of the array. */
    method Init()
      requires mtfa.Length == MTFA_SIZE && mtfbase.Length == 16 && mtfa != mtfbase
      modifies mtfa, mtfbase
      ensures Valid() && List() == Iota(256)
    {
      var kk := MTFA_SIZE - 1;
      for ii := 16 downto 0
        invariant kk == 3840 + 16 * ii - 1
        invariant forall w :: ii <= w < 16 ==> mtfbase[w] == 3840 + 16 * w
        invariant forall x :: kk < x < MTFA_SIZE ==> mtfa[x] == x - 3840
      {
        for jj := 16 downto 0
          invariant kk == 3840 + 16 * ii + jj - 1
          invariant forall x :: kk < x < MTFA_SIZE ==> mtfa[x] == x - 3840
          invariant forall w :: ii < w < 16 ==> mtfbase[w] == 3840 + 16 * w
        {
          mtfa[kk] := ii * 16 + jj;
          kk := kk - 1;
        }
        mtfbase[ii] := kk + 1;
      }
      PackedList(mtfa[..], mtfbase[..], Iota(256));
    }

    /** nn < 16: rotate inside the first window, four cells at a time. */
    method MoveNear(nn0: nat) returns (uc: nat)
      requires Valid() && nn0 < 16
      modifies mtfa
      ensures Valid() && uc == old(List())[nn0]
      ensures List() == MoveFront(old(List()), nn0)
    {
      hide ShiftUp, Listed, MoveFront;
      ghost var before, base := mtfa[..], mtfbase[..];
      ListedAt(before, base, 0, nn0);
      var nn: nat := nn0;
      var pp: nat := mtfbase[0];
      uc := mtfa[pp + nn];
      ShiftNothing(before, pp + nn0);
      while nn > 3
        invariant nn <= nn0 && mtfa[..] == ShiftUp(before, pp + nn, pp + nn0)
      {
        var z := pp + nn;
        ShiftUpStep(before, z, pp + nn0);
        ShiftUpStep(before, z - 1, pp + nn0);
        ShiftUpStep(before, z - 2, pp + nn0);
        ShiftUpStep(before, z - 3, pp + nn0);
        mtfa[z] := mtfa[z - 1];
        mtfa[z - 1] := mtfa[z - 2];
        mtfa[z - 2] := mtfa[z - 3];
        mtfa[z - 3] := mtfa[z - 4];
        nn := nn - 4;
      }
      while nn > 0
        invariant nn <= nn0 && mtfa[..] == ShiftUp(before, pp + nn, pp + nn0)
      {
        ShiftUpStep(before, pp + nn, pp + nn0);
        mtfa[pp + nn] := mtfa[pp + nn - 1];
        nn := nn - 1;
      }
      mtfa[pp] := uc;
      NearIsMoveFront(before, base, nn0);
    }

    /** nn >= 16: open a gap in the window, then hand one cell down per window. */
    method MoveFar(nn: nat) returns (uc: nat)
      requires Valid() && 16 <= nn < 256
      modifies mtfa, mtfbase
      ensures uc == old(List())[nn]
      ensures mtfbase[..] == Slid(old(mtfbase[..]), nn / 16)
      ensures Listed(mtfa[..], mtfbase[..]) == MoveFront(old(List()), nn)
    {
      hide Listed, MoveFront, Hand, ShiftUp;
      ghost var before, base := mtfa[..], mtfbase[..];
      var lno, off := nn / 16, nn % 16;
      ghost var top := lno;
      ListedAt(before, base, lno, off);
      var pp: nat := mtfbase[lno] + off;
      uc := mtfa[pp];
      ShiftNothing(before, base[lno] + off);
      while pp > mtfbase[lno]
        invariant base[lno] <= pp <= base[lno] + off && mtfbase[..] == base
        invariant mtfa[..] == ShiftUp(before, pp, base[lno] + off)
      {
        ShiftUpStep(before, pp, base[lno] + off);
        mtfa[pp] := mtfa[pp - 1];
        pp := pp - 1;
      }
      mtfbase[lno] := mtfbase[lno] + 1;
      HandDown(lno, base);
      mtfbase[0] := mtfbase[0] - 1;
      mtfa[mtfbase[0]] := uc;
      FarIsMoveFront(before, base, top, off);
      assert mtfa[..] == Far(before, base, top, off);
      assert mtfbase[..] == Slid(base, top);
    }

    /** Every window below lno hands its last cell to the next one. */
    method HandDown(lno0: nat, ghost base: seq<nat>)
      requires mtfa.Length == MTFA_SIZE && mtfbase.Length == 16 && mtfa != mtfbase && Windows(base) && 1 <= lno0 < 16
      requires mtfbase[..] == base[lno0 := base[lno0] + 1]
      modifies mtfa, mtfbase
      ensures mtfa[..] == Hand(old(mtfa[..]), base, lno0, 0)
      ensures forall w :: 0 <= w < 16 ==> mtfbase[w] == if 0 < w < lno0 then base[w] - 1 else base[w]
    {
      hide Hand;
      ghost var parted := mtfa[..];
      var lno := lno0;
      HandNone(parted, base, lno0);
      while lno > 0
        invariant 0 <= lno <= lno0
        invariant forall w :: 0 <= w < 16 ==>
          mtfbase[w] == if w == lno0 then (if lno == lno0 then base[w] + 1 else base[w])
                        else if lno < w < lno0 then base[w] - 1 else base[w]
        invariant mtfa[..] == Hand(parted, base, lno0, lno)
      {
        HandMore(parted, base, lno0, lno - 1);
        mtfbase[lno] := mtfbase[lno] - 1;
        mtfa[mtfbase[lno]] := mtfa[mtfbase[lno - 1] + MTFL_SIZE - 1];
        lno := lno - 1;
      }
    }

    /** mtfbase[0] reached 0: copy all windows back to the top of the array. */
    method Repack()
      requires mtfa.Length == MTFA_SIZE && mtfbase.Length == 16 && mtfa != mtfbase && Windows(mtfbase[..])
      modifies mtfa, mtfbase
      ensures Valid() && List() == old(Listed(mtfa[..], mtfbase[..]))
    {
      hide Listed;
      ghost var before, base := mtfa[..], mtfbase[..];
      ghost var list := Listed(before, base);
      var kk := MTFA_SIZE - 1;
      for ii := 16 downto 0
        invariant kk == 3840 + 16 * ii - 1
        invariant forall w :: 0 <= w < 16 ==> mtfbase[w] == if w < ii then base[w] else 3840 + 16 * w
        invariant forall x :: 0 <= x <= kk ==> mtfa[x] == before[x]
        invariant forall x :: kk < x < MTFA_SIZE ==> mtfa[x] == list[x - 3840]
      {
        for jj := 16 downto 0
          invariant kk == 3840 + 16 * ii + jj - 1
          invariant forall w :: 0 <= w < 16 ==> mtfbase[w] == if w <= ii then base[w] else 3840 + 16 * w
          invariant forall x :: 0 <= x <= kk ==> mtfa[x] == before[x]
          invariant forall x :: kk < x < MTFA_SIZE ==> mtfa[x] == list[x - 3840]
        {
          ListedAt(before, base, ii, jj);
          mtfa[kk] := mtfa[mtfbase[ii] + jj];
          kk := kk - 1;
        }
        mtfbase[ii] := kk + 1;
      }
      PackedList(mtfa[..], mtfbase[..], list);
    }

    /** uc = MTF(nextSym - 1): the decoder's list step refines MoveFront. */
    method Move(nn: nat) returns (uc: nat)
      requires Valid() && nn < 256
      modifies mtfa, mtfbase
      ensures Valid() && uc == old(List())[nn] && List() == MoveFront(old(List()), nn)
    {
      if nn < MTFL_SIZE {
        uc := MoveNear(nn);
      } else {
        uc := MoveFar(nn);
        if mtfbase[0] == 0 {
          Repack();
        }
      }
    }
  }

  lemma HandNone(m: seq<nat>, base: seq<nat>, top: nat)
    requires |m| == MTFA_SIZE && Windows(base) && top < 16
    ensures Hand(m, base, top, top) == m
  {
  }

  lemma HandMore(m: seq<nat>, base: seq<nat>, top: nat, low: nat)
    requires |m| == MTFA_SIZE && Windows(base) && low < top < 16
    ensures base[low] + 15 < MTFA_SIZE && Dest(base, top, low + 1) < MTFA_SIZE
    ensures var p := Hand(m, base, top, low + 1);
            Hand(m, base, top, low) == p[Dest(base, top, low + 1) := p[base[low] + 15]]
  {
  }

  lemma PackedList(mtfa: seq<nat>, base: seq<nat>, list: seq<nat>)
    requires |mtfa| == MTFA_SIZE && |base| == 16 && |list| == 256
    requires forall w :: 0 <= w < 16 ==> base[w] == 3840 + 16 * w
    requires forall x :: 3840 <= x < MTFA_SIZE ==> mtfa[x] == list[x - 3840]
    ensures Windows(base) && Listed(mtfa, base) == list
  {
    forall i | 0 <= i < 256 ensures Listed(mtfa, base)[i] == list[i] {
      ListedAt(mtfa, base, i / 16, i % 16);
    }
  }

  lemma ShiftNothing(before: seq<nat>, high: nat)
    ensures ShiftUp(before, high, high) == before
  {
  }

  lemma NearIsMoveFront(before: seq<nat>, base: seq<nat>, nn: nat)
    requires Windows(base) && |before| == MTFA_SIZE && nn < 16
    ensures Listed(ShiftUp(before, base[0], base[0] + nn)[base[0] := before[base[0] + nn]], base)
         == MoveFront(Listed(before, base), nn)
  {
    hide Listed, MoveFront;
    var after := ShiftUp(before, base[0], base[0] + nn)[base[0] := before[base[0] + nn]];
    var now, list := Listed(after, base), Listed(before, base);
    ListedAt(before, base, 0, nn);
    forall i | 0 <= i < 256 ensures now[i] == MoveFront(list, nn)[i] {
      MoveFrontAt(list, nn, i);
      ListedAt(after, base, i / 16, i % 16);
      ListedAt(before, base, i / 16, i % 16);
      if 0 < i <= nn {
        ListedAt(before, base, 0, i - 1);
      }
    }
  }
}
