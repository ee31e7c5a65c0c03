/** Numbers as most-significant-bit-first bit strings. */
module Bits {
  import opened Arith

  type Bits = seq<bool>

  function ToBits(v: nat, n: nat): (r: Bits)
    ensures |r| == n
  {
    if n == 0 then [] else ToBits(v / 2, n - 1) + [v % 2 == 1]
  }

  function FromBits(b: Bits): nat {
    if b == [] then 0 else 2 * FromBits(b[..|b| - 1]) + (if b[|b| - 1] then 1 else 0)
  }

  lemma {:induction false} FromBitsBound(b: Bits)
    ensures FromBits(b) < Pow2(|b|)
  {
    if b != [] {
      FromBitsBound(b[..|b| - 1]);
    }
  }

  lemma {:induction false} FromToBits(v: nat, n: nat)
    requires v < Pow2(n)
    ensures FromBits(ToBits(v, n)) == v
  {
    if n > 0 {
      FromToBits(v / 2, n - 1);
      assert ToBits(v, n)[..n - 1] == ToBits(v / 2, n - 1);
    }
  }

  lemma {:induction false} ToFromBits(b: Bits)
    ensures ToBits(FromBits(b), |b|) == b
  {
    if b != [] {
      ToFromBits(b[..|b| - 1]);
      assert b == b[..|b| - 1] + [b[|b| - 1]];
    }
  }

  /** The first n - k bits of a number are the number shifted right by k. */
  lemma {:induction false} ToBitsPrefix(v: nat, n: nat, k: nat)
    requires k <= n
    ensures ToBits(v, n)[..n - k] == ToBits(v / Pow2(k), n - k)
  {
    if k == 0 {
      assert ToBits(v, n)[..n] == ToBits(v, n);
    } else {
      ToBitsPrefix(v / 2, n - 1, k - 1);
      DivDiv(v, Pow2(k - 1));
      assert ToBits(v, n)[..n - k] == ToBits(v / 2, n - 1)[..n - k];
    }
  }

  lemma LastOf(a: Bits, b: Bits)
    requires b != []
    ensures FromBits(a + b) == 2 * FromBits(a + b[..|b| - 1]) + (if b[|b| - 1] then 1 else 0)
  {
    assert (a + b)[..|a + b| - 1] == a + b[..|b| - 1];
  }

  lemma {:induction false} FromBitsConcat(a: Bits, b: Bits)
    ensures FromBits(a + b) == FromBits(a) * Pow2(|b|) + FromBits(b)
  {
    if b == [] {
      assert a + b == a;
    } else {
      var i := |b| - 1;
      LastOf(a, b);
      FromBitsConcat(a, b[..i]);
      Double(FromBits(a), Pow2(i));
    }
  }

  lemma {:induction false} ToBitsConcat(v: nat, n: nat, c: nat, k: nat)
    requires c < Pow2(k)
    ensures ToBits(v * Pow2(k) + c, n + k) == ToBits(v, n) + ToBits(c, k)
    decreases k
  {
    if k > 0 {
      var p := Pow2(k - 1);
      Double(v, p);
      var w := v * Pow2(k) + c;
      assert w == 2 * (v * p + c / 2) + c % 2;
      ToBitsConcat(v, n, c / 2, k - 1);
    }
  }

  /** Zero bits. */
  function Zeros(n: nat): (r: Bits)
    ensures |r| == n && forall i :: 0 <= i < n ==> !r[i]
  {
    seq(n, _ => false)
  }
}
