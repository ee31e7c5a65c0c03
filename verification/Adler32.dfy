/** adler32.c: the checksum with its deferred modulo, its division-free
    reductions and its combination rule (section 2.2 of RFC 1950). */
module Adler32 {
  import opened Arith

  const BASE := 65521
  const NMAX := 5552

  /** An unsigned long of the 32 bits the bounds are made for. */
  type U32 = x: nat | x < 0x1_0000_0000

  // ---------- The two sums ----------

  /** s1: the start value and all bytes. */
  function Low(a: nat, bytes: seq<Byte>): nat {
    if bytes == [] then a else Low(a, bytes[..|bytes| - 1]) + bytes[|bytes| - 1]
  }

  /** s2: the start value and all the s1 values along the way. */
  function High(a: nat, b: nat, bytes: seq<Byte>): nat {
    if bytes == [] then b else High(a, b, bytes[..|bytes| - 1]) + Low(a, bytes)
  }

  function Value(low: nat, high: nat): nat { low + 65536 * high }

  /** The checksum of bytes continuing from the halves a and b. */
  function Adler(a: nat, b: nat, bytes: seq<Byte>): nat {
    Value(Low(a, bytes) % BASE, High(a, b, bytes) % BASE)
  }

  lemma Snoc(a: nat, b: nat, bytes: seq<Byte>, c: Byte)
    ensures Low(a, bytes + [c]) == Low(a, bytes) + c
    ensures High(a, b, bytes + [c]) == High(a, b, bytes) + Low(a, bytes) + c
  {
    assert (bytes + [c])[..|bytes|] == bytes;
  }

  lemma {:induction false} Concat(a: nat, b: nat, x: seq<Byte>, y: seq<Byte>)
    ensures Low(a, x + y) == Low(Low(a, x), y)
    ensures High(a, b, x + y) == High(Low(a, x), High(a, b, x), y)
    decreases |y|
  {
    if y == [] {
      assert x + y == x;
    } else {
      var n := |y| - 1;
      assert y == y[..n] + [y[n]];
      assert x + y == x + y[..n] + [y[n]];
      Concat(a, b, x, y[..n]);
      Snoc(a, b, x + y[..n], y[n]);
      Snoc(Low(a, x), High(a, b, x), y[..n], y[n]);
    }
  }

  /** The checksum of "abc". */
  lemma KnownSum()
    ensures Adler(1, 0, [0x61, 0x62, 0x63]) == 0x024d0127
  {
    var s: seq<Byte> := [0x61, 0x62, 0x63];
    assert s[..2] == [0x61, 0x62] && s[..2][..1] == [0x61] && s[..2][..1][..0] == [];
    assert Low(1, s[..2][..1]) == 98 && Low(1, s[..2]) == 196 && Low(1, s) == 295;
    assert High(1, 0, []) == 0 && High(1, 0, s[..2][..1]) == 98 && High(1, 0, s[..2]) == 294 && High(1, 0, s) == 589;
  }

  // ---------- Reductions without division ----------

  /** CHOP: 65536 is 15 modulo BASE. */
  function Chop(a: nat): (r: nat)
    ensures r % BASE == a % BASE && r <= 65535 + 15 * (a / 65536)
  {
    a % 65536 + (a / 65536 * 16 - a / 65536)
  }

  function Mod28(a: nat): (r: nat)
    requires a < 0x1000_0000
    ensures r == a % BASE
  {
    var c := Chop(a);
    if c >= BASE then c - BASE else c
  }

  function Mod(a: nat): (r: nat)
    requires a < 0x1_0000_0000
    ensures r == a % BASE
  {
    Mod28(Chop(a))
  }

  lemma AddMultiple(x: nat, k: nat)
    ensures (x + k * BASE) % BASE == x % BASE
  {
    DivDef(x, BASE);
    DivUnique(x + k * BASE, BASE, x / BASE + k, x % BASE);
  }

  /** The upper 32 bits count 225 each: 2^32 - 225 is a multiple of BASE. */
  function Fold(a: nat): (r: nat)
    requires a < 0x8000_0000_0000_0000
    ensures r % BASE == a % BASE && r < 0x1_0000_0000 + 225 * 0x8000_0000
  {
    var tmp := a / 0x1_0000_0000;
    var r := a % 0x1_0000_0000 + (tmp * 256 - tmp * 32 + tmp);
    DivDef(a, 0x1_0000_0000);
    assert a == r + (tmp * 65551) * BASE;
    AddMultiple(r, tmp * 65551);
    r
  }

  lemma ChoppedTwice(a: nat)
    requires a < 0x1_0000_0000 + 225 * 0x8000_0000
    ensures Chop(Chop(a)) < 2 * BASE
  {
    hide Chop;
    assert a / 65536 < 7438337;
    assert Chop(a) / 65536 < 1705;
  }

  /** Two chops of a folded value keep the residue and leave one subtraction. */
  lemma FoldedTwice(a: nat)
    requires a < 0x8000_0000_0000_0000
    ensures Chop(Chop(Fold(a))) < 2 * BASE && Chop(Chop(Fold(a))) % BASE == a % BASE
  {
    hide Chop, Fold;
    ChoppedTwice(Fold(a));
  }

  lemma LastSubtraction(x: nat)
    requires x < 2 * BASE
    ensures x % BASE == if x >= BASE then x - BASE else x
  {
  }

  /** For 63-bit lengths. */
  function Mod63(a: nat): (r: nat)
    requires a < 0x8000_0000_0000_0000
    ensures r == a % BASE
  {
    FoldedTwice(a);
    var a3 := Chop(Chop(Fold(a)));
    LastSubtraction(a3);
    if a3 >= BASE then a3 - BASE else a3
  }

  // ---------- Bounds inside a block ----------

  function Tri(k: nat): nat { if k == 0 then 0 else Tri(k - 1) + k }

  lemma {:induction false} TriValue(k: nat)
    ensures 2 * Tri(k) == k * (k + 1)
  {
    if k > 0 {
      TriValue(k - 1);
    }
  }

  lemma {:induction false} TriMono(j: nat, k: nat)
    requires j <= k
    ensures Tri(j) <= Tri(k)
    decreases k
  {
    if j < k {
      TriMono(j, k - 1);
    }
  }

  /** How large the sums get, and that they fit 32 bits up to NMAX bytes. */
  lemma {:induction false} SumsBounded(a: nat, b: nat, bytes: seq<Byte>)
    requires a <= 65535 && b <= 65535
    ensures Low(a, bytes) <= a + 255 * |bytes|
    ensures High(a, b, bytes) <= b + a * |bytes| + 255 * Tri(|bytes|)
    decreases |bytes|
  {
    if bytes != [] {
      SumsBounded(a, b, bytes[..|bytes| - 1]);
      Distribute(|bytes| - 1, 1, a);
    }
  }

  lemma BlockFits(a: nat, b: nat, bytes: seq<Byte>)
    requires a <= 65535 && b <= 65535 && |bytes| <= NMAX
    ensures Low(a, bytes) < 0x1_0000_0000 && High(a, b, bytes) < 0x1_0000_0000
    ensures |bytes| < 16 ==> Low(a, bytes) < 2 * BASE && High(a, b, bytes) < 0x1000_0000
  {
    SumsBounded(a, b, bytes);
    TriMono(|bytes|, NMAX);
    TriValue(NMAX);
    MulMono(a, 65535, |bytes|);
    if |bytes| < 16 {
      TriMono(|bytes|, 15);
      TriValue(15);
    }
  }

  function Ones(n: nat): (r: seq<Byte>)
    ensures |r| == n
  {
    seq(n, _ => 255)
  }

  lemma WorstStep(a: nat, b: nat, n: nat)
    requires n > 0
    ensures b + a * (n - 1) + 255 * Tri(n - 1) + (a + 255 * n) == b + a * n + 255 * Tri(n)
  {
    Distribute(n - 1, 1, a);
  }

  lemma {:induction false} WorstCase(a: nat, b: nat, n: nat)
    ensures Low(a, Ones(n)) == a + 255 * n
    ensures High(a, b, Ones(n)) == b + a * n + 255 * Tri(n)
  {
    if n > 0 {
      WorstCase(a, b, n - 1);
      assert Ones(n)[..n - 1] == Ones(n - 1);
      WorstStep(a, b, n);
    }
  }

  /** One byte more than NMAX can overflow: the constant is exact. */
  lemma NmaxIsExact()
    ensures High(BASE - 1, BASE - 1, Ones(NMAX + 1)) >= 0x1_0000_0000
    ensures forall bytes: seq<Byte> :: |bytes| <= NMAX ==> High(BASE - 1, BASE - 1, bytes) < 0x1_0000_0000
  {
    WorstCase(BASE - 1, BASE - 1, NMAX + 1);
    TriValue(NMAX + 1);
    forall bytes: seq<Byte> | |bytes| <= NMAX ensures High(BASE - 1, BASE - 1, bytes) < 0x1_0000_0000 {
      BlockFits(BASE - 1, BASE - 1, bytes);
    }
  }

  // ---------- adler32 ----------

  /** Sixteen bytes, or fewer, without reduction. */
  method Accumulate(adler: U32, sum2: U32, buf: seq<Byte>, from: nat, n: nat, ghost a: nat, ghost b: nat, ghost start: nat)
    returns (adler': U32, sum2': U32)
    requires start <= from && from + n <= |buf| && from + n - start <= NMAX && a <= 65535 && b <= 65535
    requires adler == Low(a, buf[start..from]) && sum2 == High(a, b, buf[start..from])
    ensures adler' == Low(a, buf[start..from + n]) && sum2' == High(a, b, buf[start..from + n])
  {
    adler', sum2' := adler, sum2;
    for i := 0 to n
      invariant adler' == Low(a, buf[start..from + i]) && sum2' == High(a, b, buf[start..from + i])
    {
      assert buf[start..from + i + 1] == buf[start..from + i] + [buf[from + i]];
      Snoc(a, b, buf[start..from + i], buf[from + i]);
      BlockFits(a, b, buf[start..from + i + 1]);
      adler' := adler' + buf[from + i];
      sum2' := sum2' + adler';
    }
  }

  lemma ReducedStart(a: nat, b: nat, bytes: seq<Byte>)
    ensures Low(a % BASE, bytes) % BASE == Low(a, bytes) % BASE
    ensures High(a % BASE, b % BASE, bytes) % BASE == High(a, b, bytes) % BASE
    decreases |bytes|
  {
    if bytes == [] {
      ModTwice(a);
      ModTwice(b);
    } else {
      ReducedStart(a, b, bytes[..|bytes| - 1]);
      var p := bytes[..|bytes| - 1];
      SumMod(Low(a % BASE, p), Low(a, p), bytes[|bytes| - 1]);
      SumMod2(High(a % BASE, b % BASE, p), High(a, b, p), Low(a % BASE, bytes), Low(a, bytes));
    }
  }

  lemma ModTwice(x: nat)
    ensures x % BASE % BASE == x % BASE
  {
  }

  lemma SumMod(x: nat, y: nat, c: nat)
    requires x % BASE == y % BASE
    ensures (x + c) % BASE == (y + c) % BASE
  {
  }

  lemma SumMod2(x: nat, y: nat, c: nat, d: nat)
    requires x % BASE == y % BASE && c % BASE == d % BASE
    ensures (x + c) % BASE == (y + d) % BASE
  {
  }

  /** What has been reduced up to `from` stands for all bytes so far. */
  ghost predicate Reduced(adler: nat, sum2: nat, a: nat, b: nat, buf: seq<Byte>, from: nat) {
    from <= |buf| && adler <= 65535 && sum2 <= 65535
    && adler % BASE == Low(a, buf[..from]) % BASE && sum2 % BASE == High(a, b, buf[..from]) % BASE
    && (from > 0 ==> adler < BASE && sum2 < BASE)
  }

  lemma NextBlock(adler: nat, sum2: nat, a: nat, b: nat, buf: seq<Byte>, from: nat, to': nat)
    requires Reduced(adler, sum2, a, b, buf, from) && from < to' <= |buf|
    ensures Reduced(Low(adler, buf[from..to']) % BASE, High(adler, sum2, buf[from..to']) % BASE, a, b, buf, to')
  {
    hide Low, High;
    var x, y := buf[..from], buf[from..to'];
    assert buf[..to'] == x + y;
    Concat(a, b, x, y);
    ReducedStart(adler, sum2, y);
    ReducedStart(Low(a, x), High(a, b, x), y);
  }

  /** NMAX bytes in steps of sixteen, reduced at the end. */
  method WholeBlock(adler0: U32, sum0: U32, buf: seq<Byte>, at: nat) returns (adler: U32, sum2: U32)
    requires adler0 <= 65535 && sum0 <= 65535 && at + NMAX <= |buf|
    ensures adler == Low(adler0, buf[at..at + NMAX]) % BASE
    ensures sum2 == High(adler0, sum0, buf[at..at + NMAX]) % BASE
  {
    hide Low, High;
    adler, sum2 := adler0, sum0;
    Nothing(adler0, sum0);
    assert buf[at..at] == [];
    var n, pos := NMAX / 16, at;
    while n > 0
      invariant n >= 0 && pos + 16 * n == at + NMAX && at <= pos <= |buf|
      invariant adler == Low(adler0, buf[at..pos]) && sum2 == High(adler0, sum0, buf[at..pos])
    {
      adler, sum2 := Accumulate(adler, sum2, buf, pos, 16, adler0, sum0, at);
      pos := pos + 16;
      n := n - 1;
    }
    adler := Mod(adler);
    sum2 := Mod(sum2);
  }

  /** What is left, less than NMAX bytes. */
  method Remainder(adler0: U32, sum0: U32, buf: seq<Byte>, at: nat) returns (adler: U32, sum2: U32)
    requires adler0 <= 65535 && sum0 <= 65535 && at <= |buf| < at + NMAX
    ensures adler == Low(adler0, buf[at..]) % BASE && sum2 == High(adler0, sum0, buf[at..]) % BASE
  {
    hide Low, High;
    adler, sum2 := adler0, sum0;
    Nothing(adler0, sum0);
    assert buf[at..at] == [];
    var len, pos := |buf| - at, at;
    while len >= 16
      invariant at <= pos <= |buf| && pos + len == |buf|
      invariant adler == Low(adler0, buf[at..pos]) && sum2 == High(adler0, sum0, buf[at..pos])
    {
      adler, sum2 := Accumulate(adler, sum2, buf, pos, 16, adler0, sum0, at);
      len := len - 16;
      pos := pos + 16;
    }
    adler, sum2 := Accumulate(adler, sum2, buf, pos, len, adler0, sum0, at);
    assert buf[at..pos + len] == buf[at..];
    adler := Mod(adler);
    sum2 := Mod(sum2);
  }

  lemma Nothing(a: nat, b: nat)
    ensures Low(a, []) == a && High(a, b, []) == b
  {
  }

  lemma Single(a: nat, b: nat, buf: seq<Byte>)
    requires |buf| == 1
    ensures Low(a, buf) == a + buf[0] && High(a, b, buf) == b + a + buf[0]
  {
    assert buf == [] + [buf[0]];
    Snoc(a, b, [], buf[0]);
  }

  /** A buffer of sixteen bytes or more. */
  method Long(adler0: U32, sum0: U32, buf: seq<Byte>) returns (r: nat)
    requires adler0 <= 65535 && sum0 <= 65535 && |buf| >= 16
    ensures r == Adler(adler0, sum0, buf)
  {
    hide Low, High, Value;
    var adler, sum2, at, len := adler0, sum0, 0, |buf|;
    assert buf[..0] == [] && buf[..|buf|] == buf;
    Nothing(adler0, sum0);
    while len >= NMAX
      invariant at + len == |buf| && Reduced(adler, sum2, adler0, sum0, buf, at)
    {
      len := len - NMAX;
      NextBlock(adler, sum2, adler0, sum0, buf, at, at + NMAX);
      adler, sum2 := WholeBlock(adler, sum2, buf, at);
      at := at + NMAX;
    }
    if len > 0 {
      NextBlock(adler, sum2, adler0, sum0, buf, at, |buf|);
      assert buf[at..|buf|] == buf[at..];
      adler, sum2 := Remainder(adler, sum2, buf, at);
    }
    r := Value(adler, sum2);
  }

  /** The byte-at-a-time path: one subtraction for each half. */
  method OneByte(adler0: U32, sum0: U32, c: Byte) returns (adler: U32, sum2: U32)
    requires adler0 <= 65535 && sum0 <= 65535
    ensures adler == (adler0 + c) % BASE && sum2 % BASE == (sum0 + adler0 + c) % BASE
    ensures sum2 < BASE <==> sum0 + adler < 2 * BASE
  {
    adler := adler0 + c;
    if adler >= BASE { adler := adler - BASE; }
    sum2 := sum0 + adler;
    if sum2 >= BASE { sum2 := sum2 - BASE; }
  }

  lemma SameValue(low: nat, high: nat, high2: nat)
    ensures Value(low, high) == Value(low, high2) <==> high == high2
  {
  }

  /** adler32 on a buffer that is there. The result is the checksum for every
      start value and buffer but one family: a single byte whose upper sum
      would need two subtractions, which no reduced start value leads to. */
  method Checksum(adler0: U32, buf: seq<Byte>) returns (r: nat)
    ensures var a, b := adler0 % 65536, adler0 / 65536;
            r == Adler(a, b, buf) <==> (|buf| == 1 ==> b + (a + buf[0]) % BASE < 2 * BASE)
    ensures adler0 % 65536 < BASE && adler0 / 65536 < BASE ==> r == Adler(adler0 % 65536, adler0 / 65536, buf)
  {
    hide Low, High, Value, Mod28;
    var sum2: U32 := adler0 / 65536 % 65536;
    var adler: U32 := adler0 % 65536;
    ghost var a, b: nat := adler, sum2;
    if |buf| == 1 {
      Single(a, b, buf);
      adler, sum2 := OneByte(adler, sum2, buf[0]);
      SameValue(adler, sum2, High(a, b, buf) % BASE);
      return Value(adler, sum2);
    }
    if |buf| < 16 {
      r := Short(adler, sum2, buf);
      return;
    }
    r := Long(adler, sum2, buf);
  }

  /** Fewer than sixteen bytes. */
  method Short(adler0: U32, sum0: U32, buf: seq<Byte>) returns (r: nat)
    requires adler0 <= 65535 && sum0 <= 65535 && |buf| < 16
    ensures r == Adler(adler0, sum0, buf)
  {
    hide Low, High, Chop;
    Nothing(adler0, sum0);
    assert buf[0..0] == [] && buf[0..|buf|] == buf;
    var adler, sum2 := Accumulate(adler0, sum0, buf, 0, |buf|, adler0, sum0, 0);
    BlockFits(adler0, sum0, buf);
    if adler >= BASE { adler := adler - BASE; }
    r := Value(adler, Mod28(sum2));
  }

  // ---------- adler32_combine ----------

  /** Where the sums of a part start only shifts them. */
  lemma {:induction false} Shifted(a: nat, b: nat, y: seq<Byte>)
    ensures Low(a, y) + 1 == a + Low(1, y)
    ensures High(a, b, y) + |y| == b + |y| * a + High(1, 0, y)
    decreases |y|
  {
    if y != [] {
      Shifted(a, b, y[..|y| - 1]);
      Distribute(|y| - 1, 1, a);
    }
  }

  /** The two sums adler32_combine_ forms before its final subtractions. */
  function Total1(a1: nat, a2: nat): nat { a1 + a2 + BASE - 1 }

  function Total2(a1: nat, b1: nat, b2: nat, len2: nat): nat
  {
    (len2 % BASE) * a1 % BASE + b1 + b2 + BASE - len2 % BASE
  }

  /** adler32_combine_ on the halves of both checksums, reduced or not: the
      residues are right, and each sum is reduced exactly when it was below the
      multiple of BASE that its subtractions can take off. */
  method CombineHalves(a1: U32, b1: U32, a2: U32, b2: U32, len2: nat) returns (sum1: U32, sum2: U32)
    requires a1 < 65536 && b1 < 65536 && a2 < 65536 && b2 < 65536 && len2 < 0x8000_0000_0000_0000
    ensures sum1 % BASE == (a1 + a2 + BASE - 1) % BASE && sum1 < BASE + 28
    ensures sum2 % BASE == (b1 + b2 + len2 * a1 + (BASE - 1) * len2) % BASE && sum2 < BASE + 28
    ensures sum1 < BASE <==> Total1(a1, a2) < 3 * BASE
    ensures sum2 < BASE <==> Total2(a1, b1, b2, len2) < 4 * BASE
  {
    hide Mod63, Mod;
    var rem: U32 := Mod63(len2);
    ProductFits(rem, a1);
    var prod: U32 := Mod(rem * a1);
    CombineMod(b1, b2, len2, a1, prod);
    sum1 := a1 + (a2 + BASE - 1);
    sum2 := prod + (b1 + b2 + BASE - rem);
    sum1, sum2 := Settle(sum1, sum2);
  }

  /** The final subtractions keep the residues, and reduce sums that are not too large. */
  method Settle(s1: U32, s2: U32) returns (sum1: U32, sum2: U32)
    requires s1 < 3 * BASE + 28 && s2 < 4 * BASE + 28
    ensures sum1 % BASE == s1 % BASE && (sum1 < BASE <==> s1 < 3 * BASE) && sum1 < BASE + 28
    ensures sum2 % BASE == s2 % BASE && (sum2 < BASE <==> s2 < 4 * BASE) && sum2 < BASE + 28
  {
    sum1, sum2 := s1, s2;
    if sum1 >= BASE { sum1 := sum1 - BASE; }
    if sum1 >= BASE { sum1 := sum1 - BASE; }
    if sum2 >= 2 * BASE { sum2 := sum2 - 2 * BASE; }
    if sum2 >= BASE { sum2 := sum2 - BASE; }
  }

  /** `low | high << 16` in 32 bits, for sums of at most 17 bits. */
  function Join(low: nat, high: nat): (r: U32)
    requires low < 131072 && high < 131072
    ensures r % 65536 == low % 65536
    ensures low < 65536 ==> r / 65536 == high % 65536
    ensures low < 65536 && high < 65536 ==> r == Value(low, high)
  {
    var h := if low >= 65536 && high % 2 == 0 then high + 1 else high;
    low % 65536 + 65536 * (h % 65536)
  }

  /** adler32_combine_: the checksums of two parts and the second length. The
      formula below comes out for all arguments but those whose sums need more
      subtractions than there are; reduced checksums never do. */
  method Combine(adler1: U32, adler2: U32, len2: int) returns (r: nat)
    requires len2 < 0x8000_0000_0000_0000
    ensures len2 < 0 ==> r == 0xffff_ffff
    ensures len2 >= 0 ==>
      var a1, b1, a2, b2 := adler1 % 65536, adler1 / 65536, adler2 % 65536, adler2 / 65536;
      r == Value((a1 + a2 + BASE - 1) % BASE, (b1 + b2 + len2 * a1 + (BASE - 1) * len2) % BASE)
      <==> Total1(a1, a2) < 3 * BASE && Total2(a1, b1, b2, len2) < 4 * BASE
  {
    hide Value, Join, Total1, Total2;
    if len2 < 0 { return 0xffff_ffff; }
    var a1, b1, a2, b2 := adler1 % 65536, adler1 / 65536 % 65536, adler2 % 65536, adler2 / 65536 % 65536;
    var sum1, sum2 := CombineHalves(a1, b1, a2, b2, len2);
    r := Join(sum1, sum2);
    JoinedSums(sum1, sum2);
  }

  /** Joining gives the reduced checksum only from reduced sums. */
  lemma JoinedSums(sum1: nat, sum2: nat)
    requires sum1 < BASE + 28 && sum2 < BASE + 28
    ensures Join(sum1, sum2) == Value(sum1 % BASE, sum2 % BASE) <==> sum1 < BASE && sum2 < BASE
  {
  }

  lemma TotalsReduced(a1: nat, b1: nat, a2: nat, b2: nat, len2: nat)
    requires a1 < BASE && b1 < BASE && a2 < BASE && b2 < BASE
    ensures Total1(a1, a2) < 3 * BASE && Total2(a1, b1, b2, len2) < 4 * BASE
  {
  }

  lemma ProductFits(rem: nat, a: nat)
    requires rem < BASE && a < 65536
    ensures rem * a < 0x1_0000_0000
  {
    MulMono(rem, BASE - 1, a);
    MulMono(a, 65535, BASE - 1);
  }

  lemma CombineMod(b1: nat, b2: nat, n: nat, a1: nat, prod: nat)
    requires prod == (n % BASE) * a1 % BASE
    ensures (prod + b1 + b2 + BASE - n % BASE) % BASE == (b1 + b2 + n * a1 + (BASE - 1) * n) % BASE
  {
    DivDef(n, BASE);
    var q, m := n / BASE, n % BASE;
    Distribute(q * BASE, m, a1);
    assert n * a1 == q * a1 * BASE + m * a1;
    DivDef(m * a1, BASE);
    var k := m * a1 / BASE;
    var x := prod + b1 + b2 + BASE - m;
    assert b1 + b2 + n * a1 + (BASE - 1) * n == x + (q * a1 + k + n - q - 1) * BASE;
    AddInt(x, q * a1 + k + n - q - 1);
  }

  lemma AddInt(x: int, k: int)
    ensures (x + k * BASE) % BASE == x % BASE
  {
  }

  lemma Halves(low: nat, high: nat)
    requires low < 65536
    ensures Value(low, high) % 65536 == low && Value(low, high) / 65536 == high
  {
  }

  lemma LowMod(a: nat, l: nat, r: nat)
    requires r + 1 == a + l
    ensures r % BASE == (a % BASE + l % BASE + BASE - 1) % BASE
  {
  }

  lemma HighMod(a: nat, b: nat, n: nat, h: nat, r: nat)
    requires r + n == b + n * a + h
    ensures r % BASE == (b % BASE + h % BASE + n * (a % BASE) + (BASE - 1) * n) % BASE
  {
    DivDef(a, BASE);
    DivDef(b, BASE);
    DivDef(h, BASE);
    var x := b % BASE + h % BASE + n * (a % BASE) + (BASE - 1) * n;
    var k: int := b / BASE + h / BASE + n * (a / BASE) - n;
    assert n * a == n * (a / BASE) * BASE + n * (a % BASE);
    assert r == x + k * BASE;
    AddInt(x, k);
  }

  /** The checksum of a whole from the checksums of its parts. */
  lemma CombineIsWhole(x: seq<Byte>, y: seq<Byte>)
    ensures var p, q := Adler(1, 0, x), Adler(1, 0, y);
            Adler(1, 0, x + y) ==
              Value((p % 65536 + q % 65536 + BASE - 1) % BASE,
                    (p / 65536 + q / 65536 + |y| * (p % 65536) + (BASE - 1) * |y|) % BASE)
  {
    hide Low, High;
    Concat(1, 0, x, y);
    var a, b := Low(1, x), High(1, 0, x);
    Shifted(a, b, y);
    Halves(a % BASE, b % BASE);
    Halves(Low(1, y) % BASE, High(1, 0, y) % BASE);
    LowMod(a, Low(1, y), Low(a, y));
    HighMod(a, b, |y|, High(1, 0, y), High(a, b, y));
  }

  lemma OneByteSums(a: nat, b: nat, c: Byte)
    ensures Low(a, [c]) == a + c && High(a, b, [c]) == b + a + c
  {
    Snoc(a, b, [], c);
    assert [] + [c] == [c];
  }

  /** A start value that is not reduced, and one zero byte: the result is not the
      checksum. */
  method OneByteUnreduced() returns (r: nat)
    ensures Adler(65520, 65535, [0]) == Value(65520, 13) && r != Value(65520, 13)
  {
    hide Low, High, Value;
    OneByteSums(65520, 65535, 0);
    var start: U32 := 4294967280;
    assert start % 65536 == 65520 && start / 65536 == 65535;
    r := Checksum(start, [0]);
  }

  /** Likewise for the combination, from low halves that are not reduced. */
  method CombineUnreduced() returns (r: nat)
    ensures r != Value((65535 + 65535 + BASE - 1) % BASE, 0)
  {
    r := Combine(65535, 65535, 0);
  }

  /** adler32 of two buffers, combined, is adler32 of both in a row. */
  method InTwoParts(x: seq<Byte>, y: seq<Byte>) returns (r: nat)
    requires |y| < 0x8000_0000_0000_0000
    ensures r == Adler(1, 0, x + y)
  {
    hide Low, High, Value;
    var p := Checksum(1, x);
    var q := Checksum(1, y);
    Halves(Low(1, x) % BASE, High(1, 0, x) % BASE);
    Halves(Low(1, y) % BASE, High(1, 0, y) % BASE);
    CombineIsWhole(x, y);
    TotalsReduced(p % 65536, p / 65536, q % 65536, q / 65536, |y|);
    r := Combine(p, q, |y|);
  }
}
