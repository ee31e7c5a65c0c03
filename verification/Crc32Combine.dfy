/** crc32_combine (crc32.c): zero bytes as a power of a 32 by 32 matrix over
    GF(2), by repeated squaring. */
module Crc32Combine {
  import opened Crc32

  const GF2_DIM := 32

  // ---------- Matrices ----------

  /** The matrix-vector product: the columns at the vector's one bits. */
  function Times(mat: seq<bv32>, vec: bv32): bv32 {
    if mat == [] then 0
    else Xor(if Odd(vec) then mat[0] else 0, Times(mat[1..], Half(vec)))
  }

  /** Column j, and a vector moved up by j places. */
  function Unit(j: nat): bv32 { if j == 0 then 1 else Shl1(Unit(j - 1)) }

  function Up(v: bv32, j: nat): bv32
    decreases j
  {
    if j == 0 then v else Up(Shl1(v), j - 1)
  }

  /** The matrix of n zero bits. */
  ghost predicate Operator(mat: seq<bv32>, n: nat) {
    |mat| == GF2_DIM && forall j :: 0 <= j < GF2_DIM ==> mat[j] == Zeros(Unit(j), n)
  }

  lemma SplitLow(v: bv32)
    ensures v == Xor(if Odd(v) then 1 else 0, Shl1(Half(v)))
  {
    SplitLowRaw(v);
  }

  lemma SplitLowRaw(v: bv32)
    ensures v & 1 == 0 || v & 1 == 1
    ensures v == (v & 1) ^ ((v >> 1) << 1)
  {
  }

  lemma Shl1Xor(a: bv32, b: bv32)
    ensures Shl1(Xor(a, b)) == Xor(Shl1(a), Shl1(b))
  {
    Shl1XorRaw(a, b);
  }

  lemma Shl1XorRaw(a: bv32, b: bv32)
    ensures (a ^ b) << 1 == (a << 1) ^ (b << 1)
  {
  }

  lemma {:induction false} UpXor(a: bv32, b: bv32, j: nat)
    ensures Up(Xor(a, b), j) == Xor(Up(a, j), Up(b, j))
    decreases j
  {
    hide Xor, Shl1;
    if j > 0 {
      Shl1Xor(a, b);
      UpXor(Shl1(a), Shl1(b), j - 1);
    }
  }

  lemma {:induction false} UpUnit(j: nat, k: nat)
    ensures Up(Unit(k), j) == Unit(k + j)
    decreases j
  {
    hide Shl1;
    if j > 0 {
      UpUnit(j - 1, k + 1);
    }
  }

  lemma {:induction false} UpZero(j: nat)
    ensures Up(0, j) == 0
    decreases j
  {
    assert Shl1(0) == 0;
    if j > 0 {
      UpZero(j - 1);
    }
  }

  lemma {:induction false} UpAdd(v: bv32, i: nat, j: nat)
    ensures Up(v, i + j) == Up(Up(v, i), j)
    decreases i
  {
    hide Shl1;
    if i > 0 {
      UpAdd(Shl1(v), i - 1, j);
    }
  }

  lemma UpEight(v: bv32)
    ensures Up(v, 8) == Shl8(v)
  {
    hide Shl1, Shl8;
    ShlAgain(v);
    assert Up(v << 7, 1) == Up(Shl8(v), 0);
    assert Up(v << 6, 2) == Up(v << 7, 1);
    assert Up(v << 5, 3) == Up(v << 6, 2);
    assert Up(v << 4, 4) == Up(v << 5, 3);
    assert Up(v << 3, 5) == Up(v << 4, 4);
    assert Up(v << 2, 6) == Up(v << 3, 5);
    assert Up(v << 1, 7) == Up(v << 2, 6);
  }

  lemma Gone(v: bv32)
    ensures Shl8(Shl8(Shl8(Shl8(v)))) == 0
  {
  }

  /** After 32 places nothing is left. */
  lemma UpAll(v: bv32)
    ensures Up(v, 32) == 0
  {
    hide Up, Shl8;
    var v1 := Shl8(v);
    var v2 := Shl8(v1);
    var v3 := Shl8(v2);
    UpEight(v);
    UpEight(v1);
    UpEight(v2);
    UpEight(v3);
    UpAdd(v, 8, 24);
    UpAdd(v1, 8, 16);
    UpAdd(v2, 8, 8);
    Gone(v);
  }

  lemma ShlAgain(v: bv32)
    ensures Shl1(v) == v << 1 && Shl1(v << 1) == v << 2 && Shl1(v << 2) == v << 3 && Shl1(v << 3) == v << 4
    ensures Shl1(v << 4) == v << 5 && Shl1(v << 5) == v << 6 && Shl1(v << 6) == v << 7 && Shl1(v << 7) == Shl8(v)
  {
  }

  /** The last 32 - j columns act on what has been moved up by j. */
  lemma {:induction false} TimesFrom(mat: seq<bv32>, n: nat, v: bv32, j: nat)
    requires Operator(mat, n) && j <= GF2_DIM
    ensures Times(mat[j..], v) == Zeros(Up(v, j), n)
    decreases GF2_DIM - j
  {
    hide Xor, Half, Odd, Shl1, ShiftBit;
    if j == GF2_DIM {
      UpAll(v);
      ZerosOfZero(n);
    } else {
      var h := Half(v);
      assert mat[j..][1..] == mat[j + 1..];
      TimesFrom(mat, n, h, j + 1);
      SplitLow(v);
      var low: bv32 := if Odd(v) then 1 else 0;
      UpXor(low, Shl1(h), j);
      ZerosLinear(Up(low, j), Up(Shl1(h), j), n);
      if Odd(v) {
        UpUnit(j, 0);
      } else {
        UpZero(j);
        ZerosOfZero(n);
      }
    }
  }

  /** A matrix whose columns are the images of the unit vectors applies the
      operator to every vector. */
  lemma TimesIsZeros(mat: seq<bv32>, n: nat, v: bv32)
    requires Operator(mat, n)
    ensures Times(mat, v) == Zeros(v, n)
  {
    TimesFrom(mat, n, v, 0);
    assert mat[0..] == mat;
  }

  lemma {:induction false} TimesZero(mat: seq<bv32>)
    ensures Times(mat, 0) == 0
  {
    assert Half(0) == 0 && !Odd(0) && Xor(0, 0) == 0;
    if mat != [] {
      TimesZero(mat[1..]);
    }
  }

  function Down(v: bv32, j: nat): bv32
    decreases j
  {
    if j == 0 then v else Down(Half(v), j - 1)
  }

  lemma {:induction false} DownAdd(v: bv32, i: nat, j: nat)
    ensures Down(v, i + j) == Down(Down(v, i), j)
    decreases i
  {
    hide Half;
    if i > 0 {
      DownAdd(Half(v), i - 1, j);
    }
  }

  lemma DownEight(v: bv32)
    ensures Down(v, 8) == Shr8(v)
  {
    hide Half, Shr8;
    ShiftAgain(v);
    assert Down(v >> 7, 1) == Down(Shr8(v), 0);
    assert Down(v >> 6, 2) == Down(v >> 7, 1);
    assert Down(v >> 5, 3) == Down(v >> 6, 2);
    assert Down(v >> 4, 4) == Down(v >> 5, 3);
    assert Down(v >> 3, 5) == Down(v >> 4, 4);
    assert Down(v >> 2, 6) == Down(v >> 3, 5);
    assert Down(v >> 1, 7) == Down(v >> 2, 6);
  }

  lemma GoneDown(v: bv32)
    ensures Shr8(Shr8(Shr8(Shr8(v)))) == 0
  {
  }

  /** 32 halvings leave nothing. */
  lemma DownAll(v: bv32)
    ensures Down(v, 32) == 0
  {
    hide Down, Shr8;
    var v1 := Shr8(v);
    var v2 := Shr8(v1);
    var v3 := Shr8(v2);
    DownEight(v);
    DownEight(v1);
    DownEight(v2);
    DownEight(v3);
    DownAdd(v, 8, 24);
    DownAdd(v1, 8, 16);
    DownAdd(v2, 8, 8);
    GoneDown(v);
  }

  /** gf2_matrix_times: stops at the highest one bit, within the matrix. */
  method MatrixTimes(mat: seq<bv32>, vec0: bv32) returns (sum: bv32)
    requires |mat| == GF2_DIM
    ensures sum == Times(mat, vec0)
  {
    hide Xor, Half, Odd;
    sum := 0;
    var vec, i := vec0, 0;
    assert mat[0..] == mat;
    XorSelf(Times(mat, vec0));
    DownAll(vec0);
    while vec != 0
      invariant 0 <= i <= GF2_DIM && Xor(sum, Times(mat[i..], vec)) == Times(mat, vec0)
      invariant Down(vec, GF2_DIM - i) == 0
      decreases GF2_DIM - i
    {
      assert mat[i..][1..] == mat[i + 1..];
      var column: bv32 := if Odd(vec) then mat[i] else 0;
      XorAssoc(sum, column, Times(mat[i + 1..], Half(vec)));
      XorSelf(sum);
      if Odd(vec) { sum := Xor(sum, mat[i]); }
      vec := Half(vec);
      i := i + 1;
    }
    TimesZero(mat[i..]);
    XorSelf(sum);
  }

  /** gf2_matrix_square: squaring composes the operator with itself. */
  method MatrixSquare(square: array<bv32>, mat: seq<bv32>, ghost n: nat)
    requires square.Length == GF2_DIM && Operator(mat, n)
    modifies square
    ensures Operator(square[..], 2 * n)
  {
    hide Zeros, Unit, Times;
    for i := 0 to GF2_DIM
      invariant forall j :: 0 <= j < i ==> square[j] == Zeros(Unit(j), 2 * n)
    {
      square[i] := MatrixTimes(mat, mat[i]);
      TimesIsZeros(mat, n, mat[i]);
      ZerosAdd(Unit(i), n, n);
    }
  }

  // ---------- crc32_combine ----------

  /** A bound that r more places keep below the top bit. */
  function Bound(r: nat): bv32
    requires r <= 7
  {
    match r
    case 0 => 0x40000000
    case 1 => 0x20000000
    case 2 => 0x10000000
    case 3 => 0x08000000
    case 4 => 0x04000000
    case 5 => 0x02000000
    case 6 => 0x01000000
    case _ => 0x00800000
  }

  lemma BoundStep(u: bv32, r: nat)
    requires 1 <= r <= 7 && u <= Bound(r)
    ensures Shl1(u) <= Bound(r - 1)
  {
  }

  lemma {:induction false} UpBounded(u: bv32, r: nat)
    requires r <= 7 && u <= Bound(r)
    ensures Up(u, r) <= 0x40000000
    decreases r
  {
    hide Shl1;
    if r > 0 {
      BoundStep(u, r);
      UpBounded(Shl1(u), r - 1);
    }
  }

  lemma ShlValues()
    ensures Shl8(1) == 0x100 && Shl8(0x100) == 0x10000 && Shl8(0x10000) == 0x1000000
  {
  }

  lemma ByteUnits()
    ensures Unit(0) == 1 && Unit(8) == 0x100 && Unit(16) == 0x10000 && Unit(24) == 0x1000000
  {
    hide Shl1;
    ShlValues();
    assert Unit(0) == 1;
    UpUnit(8, 0);
    UpEight(1);
    UpUnit(8, 8);
    UpEight(0x100);
    UpUnit(8, 16);
    UpEight(0x10000);
  }

  lemma UnitBounded(j: nat)
    requires j < 31
    ensures Unit(j) <= 0x40000000
  {
    hide Shl1, Up, Unit;
    ByteUnits();
    var q := if j < 8 then 0 else if j < 16 then 8 else if j < 24 then 16 else 24;
    UpUnit(j - q, q);
    UpBounded(Unit(q), j - q);
  }

  /** Every column but the first just moves down by one. */
  lemma OneZero(j: nat)
    requires 0 < j < 32
    ensures Zeros(Unit(j), 1) == Unit(j - 1)
  {
    hide Shl1, ShiftBit;
    UnitBounded(j - 1);
    ShiftUnit(Unit(j - 1));
    assert Zeros(Unit(j), 1) == ShiftBit(Zeros(Unit(j), 0));
  }

  lemma FirstColumn()
    ensures Zeros(Unit(0), 1) == POLY
  {
    assert ShiftBit(1) == POLY;
    assert Zeros(Unit(0), 1) == ShiftBit(Zeros(Unit(0), 0));
  }

  lemma ShiftUnit(u: bv32)
    requires u <= 0x40000000
    ensures ShiftBit(Shl1(u)) == u
  {
    ShiftUnitRaw(u);
  }

  lemma ShiftUnitRaw(u: bv32)
    requires u <= 0x40000000
    ensures (u << 1) & 1 == 0 && (u << 1) >> 1 == u
  {
  }

  /** The operator for one zero bit. */
  method OneBitOperator(odd: array<bv32>)
    requires odd.Length == GF2_DIM
    modifies odd
    ensures Operator(odd[..], 1)
  {
    hide Zeros, Shl1;
    odd[0] := 0xedb88320;
    FirstColumn();
    var row: bv32 := 1;
    for n := 1 to GF2_DIM
      invariant row == Unit(n - 1)
      invariant forall j :: 0 <= j < n ==> odd[j] == Zeros(Unit(j), 1)
    {
      OneZero(n);
      odd[n] := row;
      row := Shl1(row);
    }
  }

  /** k zero bytes, in units of p zero bits doubled. */
  lemma HalveZeros(c: bv32, p: nat, k: nat)
    ensures Zeros(c, 2 * p * k) == Zeros(if k % 2 == 1 then Zeros(c, 2 * p) else c, 2 * (2 * p) * (k / 2))
  {
    hide Zeros;
    assert k == 2 * (k / 2) + k % 2;
    if k % 2 == 1 {
      assert 2 * p * k == 2 * p + 2 * (2 * p) * (k / 2);
      ZerosAdd(c, 2 * p, 2 * (2 * p) * (k / 2));
    } else {
      assert 2 * p * k == 2 * (2 * p) * (k / 2);
    }
  }

  /** One turn: square the operator, and apply it if the length's bit is one. */
  method Turn(square: array<bv32>, mat: seq<bv32>, ghost p: nat, crc: bv32, len: nat) returns (crc': bv32)
    requires square.Length == GF2_DIM && Operator(mat, p)
    modifies square
    ensures Operator(square[..], 2 * p)
    ensures Zeros(crc', 2 * (2 * p) * (len / 2)) == Zeros(crc, 2 * p * len)
  {
    hide Zeros, Operator, Times;
    MatrixSquare(square, mat, p);
    HalveZeros(crc, p, len);
    crc' := crc;
    if len % 2 == 1 {
      OperatorSize(square[..], 2 * p);
      TimesIsZeros(square[..], 2 * p, crc);
      crc' := MatrixTimes(square[..], crc);
    }
  }

  lemma OperatorSize(mat: seq<bv32>, n: nat)
    requires Operator(mat, n)
    ensures |mat| == GF2_DIM
  {
  }

  /** crc32_combine_: exactly 8 * len2 zero bits are applied to crc1. */
  method Crc32Combine(crc1: bv32, crc2: bv32, len2: int) returns (r: bv32)
    ensures len2 <= 0 ==> r == crc1
    ensures len2 > 0 ==> r == Xor(Zeros(crc1, 8 * len2), crc2)
  {
    hide Zeros, Operator, Xor;
    if len2 <= 0 { return crc1; }
    var even, odd := new bv32[GF2_DIM], new bv32[GF2_DIM];
    OneBitOperator(odd);
    MatrixSquare(even, odd[..], 1);
    MatrixSquare(odd, even[..], 2);
    var crc, len := crc1, len2;
    ghost var p: nat := 4;
    while true
      invariant len > 0 && Operator(odd[..], p) && Zeros(crc, 2 * p * len) == Zeros(crc1, 8 * len2)
      decreases len
    {
      crc := Turn(even, odd[..], p, crc, len);
      len := len / 2;
      p := 2 * p;
      if len == 0 { break; }
      crc := Turn(odd, even[..], p, crc, len);
      len := len / 2;
      p := 2 * p;
      if len == 0 { break; }
    }
    NoZeros(crc, 2 * p * len);
    r := Xor(crc, crc2);
  }

  lemma NoZeros(c: bv32, n: nat)
    ensures n == 0 ==> Zeros(c, n) == c
  {
  }

  // ---------- The checksum of a whole ----------

  /** Feeding bytes is zeros for the register and the bytes for a zero one. */
  lemma {:induction false} RegisterSplit(c: bv32, d: bv32, bytes: seq<bv8>)
    ensures Register(Xor(c, d), bytes) == Xor(Zeros(c, 8 * |bytes|), Register(d, bytes))
    decreases |bytes|
  {
    hide Xor, Zeros, FeedBits, Wide;
    if bytes == [] {
      NoZeros(c, 0);
    } else {
      var n := |bytes| - 1;
      var z, f, b := Zeros(c, 8 * n), Register(d, bytes[..n]), bytes[n];
      RegisterSplit(c, d, bytes[..n]);
      ByteAtOnce(Xor(z, f), b);
      ByteAtOnce(f, b);
      XorAssoc(z, f, Wide(b));
      ZerosLinear(z, Xor(f, Wide(b)), 8);
      ZerosAdd(c, 8 * n, 8);
    }
  }

  /** The checksum of a whole from those of its parts and the second length. */
  lemma CombineIsWhole(crc: bv32, a: seq<bv8>, b: seq<bv8>)
    ensures Checksum(crc, a + b) == Xor(Zeros(Checksum(crc, a), 8 * |b|), Checksum(0, b))
  {
    hide Xor, Zeros, Register;
    var x := Register(Xor(crc, ONES), a);
    RegisterConcat(Xor(crc, ONES), a, b);
    XorSelf(ONES);
    XorAssoc(x, ONES, ONES);
    XorSelf(x);
    RegisterSplit(Xor(x, ONES), ONES, b);
    XorAssoc(Zeros(Xor(x, ONES), 8 * |b|), Register(ONES, b), ONES);
  }

  /** crc32 of two buffers, combined, is crc32 of both in a row. */
  method InTwoParts(t0: Table, crc: bv32, a: seq<bv8>, b: seq<bv8>) returns (r: bv32)
    requires HoldsTable(t0, 0)
    ensures r == Checksum(crc, a + b)
  {
    hide Xor, Zeros, Register, HoldsTable;
    var p := Crc32Bytewise(t0, crc, a);
    var q := Crc32Bytewise(t0, 0, b);
    CombineIsWhole(crc, a, b);
    r := Crc32Combine(p, q, |b|);
    if b == [] {
      assert a + b == a;
    }
  }
}
