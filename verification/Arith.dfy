/** Powers of two and other arithmetic shared by the stages. */
module Arith {

  type Byte = x: nat | x < 256

  /** Two to the 32. */
  const WORD := 0x1_0000_0000

  /** The most symbols an alphabet can have: 255 ranks, RUNA, RUNB and the end
      marker. */
  const MAX_ALPHA_SIZE := 258

  /** Entries i and j exchanged. */
  ghost function Swap(f: seq<nat>, i: int, j: int): seq<nat>
    requires 0 <= i < |f| && 0 <= j < |f|
  {
    f[i := f[j]][j := f[i]]
  }

  function Pow2(n: nat): (r: nat)
    ensures r >= 1
  {
    if n == 0 then 1 else 2 * Pow2(n - 1)
  }

  lemma {:induction false} Pow2Add(a: nat, b: nat)
    ensures Pow2(a + b) == Pow2(a) * Pow2(b)
  {
    if a == 0 {
    } else {
      Pow2Add(a - 1, b);
      assert Pow2(a + b) == 2 * (Pow2(a - 1) * Pow2(b)) == Pow2(a) * Pow2(b);
    }
  }

  lemma {:induction false} Pow2Mono(a: nat, b: nat)
    requires a <= b
    ensures Pow2(a) <= Pow2(b)
    decreases b
  {
    if a < b {
      Pow2Mono(a, b - 1);
    }
  }

  // ---------- Products and quotients, one step at a time ----------

  lemma MulMono(a: int, b: int, c: int)
    requires a <= b && 0 <= c
    ensures a * c <= b * c
  {
  }

  lemma Distribute(a: int, b: int, c: int)
    ensures (a + b) * c == a * c + b * c
  {
  }

  lemma DivDef(v: nat, p: nat)
    requires p >= 1
    ensures v == (v / p) * p + v % p && v % p < p
  {
  }

  function Quotient(v: nat, p: nat): (q: nat)
    requires p >= 1
    ensures q == v / p
  {
    DivDef(v, p);
    v / p
  }

  lemma SmallMultiple(d: int, p: int)
    requires -p < d * p < p
    ensures d == 0
  {
    if d >= 1 {
      MulMono(1, d, p);
    } else if d <= -1 {
      MulMono(d, -1, p);
    }
  }

  lemma DivUnique(v: nat, p: nat, q: nat, r: nat)
    requires p >= 1 && v == q * p + r && r < p
    ensures v / p == q && v % p == r
  {
    DivDef(v, p);
    var d: int := v / p - q;
    Distribute(d, q, p);
    SmallMultiple(d, p);
  }

  lemma DivAtLeast(v: nat, p: nat, x: nat)
    requires p >= 1 && v >= x * p
    ensures v / p >= x
  {
    DivDef(v, p);
    Distribute(v / p, 1, p);
    MulLess(x, v / p + 1, p);
  }

  lemma MulLess(a: nat, b: nat, p: nat)
    requires a * p < b * p
    ensures a < b
  {
    if a >= b {
      MulMono(b, a, p);
    }
  }

  lemma DivBelow(v: nat, p: nat, q: nat)
    requires p >= 1 && v < q * p
    ensures v / p < q
  {
    DivDef(v, p);
    MulLess(v / p, q, p);
  }

  lemma DivDiv(v: nat, p: nat)
    requires p >= 1
    ensures v / 2 / p == v / (2 * p)
  {
    DivDef(v / 2, p);
    var q, r := v / 2 / p, v / 2 % p;
    DivUnique(v, 2 * p, q, 2 * r + v % 2);
  }

  lemma Double(a: int, b: int)
    ensures a * (2 * b) == 2 * (a * b) == (2 * a) * b
  {
  }

  lemma Pow2Values()
    ensures Pow2(8) == 256 && Pow2(16) == 65536 && Pow2(17) == 131072 && Pow2(20) == 1048576
  {
    assert Pow2(4) == 16;
    Pow2Add(4, 4);
    Pow2Add(8, 8);
    Pow2Add(16, 4);
  }

  lemma Pow2Less(a: nat, b: nat)
    requires Pow2(a) < Pow2(b)
    ensures a < b
  {
    if b <= a {
      Pow2Mono(b, a);
    }
  }
}
