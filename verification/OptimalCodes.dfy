/** What Huffman's choice rests on: in any prefix code two lightest symbols can
    be given one and the same length, the longest, at no cost. */
module OptimalCodes {
  import opened Arith

  // ---------- Sums ----------

  ghost function Sum(s: seq<nat>): nat {
    if s == [] then 0 else Sum(s[..|s| - 1]) + s[|s| - 1]
  }

  lemma {:induction false} SumUpdate(s: seq<nat>, i: nat, x: nat)
    requires i < |s|
    ensures Sum(s[i := x]) == Sum(s) - s[i] + x
    ensures Sum(s) >= s[i]
  {
    var n := |s| - 1;
    if i == n {
      assert s[i := x][..n] == s[..n];
    } else {
      assert s[i := x][..n] == s[..n][i := x];
      SumUpdate(s[..n], i, x);
    }
  }

  lemma SumSnoc(s: seq<nat>, x: nat)
    ensures Sum(s + [x]) == Sum(s) + x
  {
    assert (s + [x])[..|s|] == s;
  }

  lemma {:induction false} SumOfZeros(s: seq<nat>)
    requires forall i :: 0 <= i < |s| ==> s[i] == 0
    ensures Sum(s) == 0
  {
    if s != [] {
      SumOfZeros(s[..|s| - 1]);
    }
  }

  predicate Multiple(x: nat, p: nat) {
    p >= 1 && x % p == 0
  }

  lemma {:induction false} SumOfMultiples(s: seq<nat>, p: nat)
    requires p >= 1 && forall i :: 0 <= i < |s| ==> Multiple(s[i], p)
    ensures Multiple(Sum(s), p)
  {
    hide Multiple;
    NoMultiple(p);
    if s != [] {
      SumOfMultiples(s[..|s| - 1], p);
      MultipleSum(Sum(s[..|s| - 1]), s[|s| - 1], p);
    }
  }

  lemma NoMultiple(p: nat)
    requires p >= 1
    ensures Multiple(0, p)
  {
  }

  lemma MultipleSum(a: nat, b: nat, p: nat)
    requires Multiple(a, p) && Multiple(b, p)
    ensures Multiple(a + b, p)
  {
    DivDef(a, p);
    DivDef(b, p);
    Distribute(a / p, b / p, p);
    DivUnique(a + b, p, a / p + b / p, 0);
  }

  /** Below a multiple there is room for the whole step. */
  lemma RoomForStep(a: nat, b: nat, p: nat)
    requires Multiple(a, p) && Multiple(b, p) && a < b
    ensures a + p <= b
  {
    DivDef(a, p);
    DivDef(b, p);
    MulLess(a / p, b / p, p);
    MulMono(a / p + 1, b / p, p);
    Distribute(a / p, 1, p);
  }

  lemma {:induction false} Pow2Divides(a: nat, b: nat)
    requires a <= b
    ensures Multiple(Pow2(b), Pow2(a))
    decreases b
  {
    if a == b {
      DivUnique(Pow2(b), Pow2(a), 1, 0);
    } else {
      Pow2Divides(a, b - 1);
      MultipleSum(Pow2(b - 1), Pow2(b - 1), Pow2(a));
    }
  }

  // ---------- Codes for some of the entries ----------

  /** The bits spent on each entry that takes part. */
  ghost function Costs(act: seq<bool>, w: seq<nat>, l: seq<nat>): (r: seq<nat>)
    requires |act| == |l| <= |w|
    ensures |r| == |l| && forall i :: 0 <= i < |r| ==> r[i] == if act[i] then w[i] * l[i] else 0
  {
    seq(|l|, i requires 0 <= i < |l| => if act[i] then w[i] * l[i] else 0)
  }

  /** The part of the code space a code of this length takes, of Pow2(m) in all. */
  ghost function Share(len: nat, m: nat): nat {
    if len <= m then Pow2(m - len) else 0
  }

  ghost function Shares(act: seq<bool>, l: seq<nat>, m: nat): (r: seq<nat>)
    requires |act| == |l|
    ensures |r| == |l| && forall i :: 0 <= i < |r| ==> r[i] == if act[i] then Share(l[i], m) else 0
  {
    seq(|l|, i requires 0 <= i < |l| => if act[i] then Share(l[i], m) else 0)
  }

  lemma ShareAt(act: seq<bool>, l: seq<nat>, m: nat, i: nat, x: nat)
    requires |act| == |l| && i < |l| && act[i]
    ensures Sum(Shares(act, l[i := x], m)) == Sum(Shares(act, l, m)) - Share(l[i], m) + Share(x, m)
  {
    hide Share;
    SumUpdate(Shares(act, l, m), i, Share(x, m));
    assert Shares(act, l[i := x], m) == Shares(act, l, m)[i := Share(x, m)];
  }

  lemma CostAt(act: seq<bool>, w: seq<nat>, l: seq<nat>, i: nat, x: nat)
    requires |act| == |l| <= |w| && i < |l| && act[i]
    ensures Sum(Costs(act, w, l[i := x])) == Sum(Costs(act, w, l)) - w[i] * l[i] + w[i] * x
  {
    var c, cost := Costs(act, w, l), w[i] * x;
    SumUpdate(c, i, cost);
    var c' := c[i := cost];
    assert Costs(act, w, l[i := x]) == c';
  }

  /** Lengths of a prefix code: Kraft's inequality. */
  ghost predicate Fits(act: seq<bool>, l: seq<nat>, m: nat) {
    && |act| == |l| && (forall i :: 0 <= i < |l| && act[i] ==> l[i] <= m)
    && Sum(Shares(act, l, m)) <= Pow2(m)
  }

  /** Entries a and b are the two lightest. */
  ghost predicate TwoLightest(act: seq<bool>, w: seq<nat>, a: nat, b: nat) {
    && a < |act| <= |w| && b < |act| && a != b && act[a] && act[b] && w[a] <= w[b]
    && forall v :: 0 <= v < |act| && act[v] && v != a ==> w[b] <= w[v]
  }

  /** Two entries change lengths. */
  lemma Exchange(act: seq<bool>, w: seq<nat>, l: seq<nat>, m: nat, x: nat, y: nat)
    requires Fits(act, l, m) && |l| <= |w| && x < |l| && y < |l| && act[x] && act[y]
    requires w[x] <= w[y] && l[x] <= l[y]
    ensures Fits(act, Swap(l, x, y), m)
    ensures Sum(Costs(act, w, Swap(l, x, y))) <= Sum(Costs(act, w, l))
  {
    hide Share, Shares, Costs, Sum;
    var l' := l[x := l[y]];
    if x == y {
      assert Swap(l, x, y) == l;
    } else {
      ShareAt(act, l, m, x, l[y]);
      ShareAt(act, l', m, y, l[x]);
      CostAt(act, w, l, x, l[y]);
      CostAt(act, w, l', y, l[x]);
      Rearrange(w[x], w[y], l[x], l[y]);
    }
  }

  lemma Rearrange(a: nat, b: nat, k: nat, l: nat)
    requires a <= b && k <= l
    ensures a * l + b * k <= a * k + b * l
  {
    MulMono(a, b, l - k);
    assert a * (l - k) == a * l - a * k && b * (l - k) == b * l - b * k;
  }

  /** An entry of greatest length among those that take part, `out` excepted. */
  lemma {:induction false} Longest(act: seq<bool>, l: seq<nat>, out: int, some: nat) returns (x: nat)
    requires some < |act| <= |l| && act[some] && some != out
    ensures x < |act| && act[x] && x != out
    ensures forall v :: 0 <= v < |act| && act[v] && v != out ==> l[v] <= l[x]
    decreases |act|
  {
    var n := |act| - 1;
    x := some;
    if k :| 0 <= k < n && act[k] && k != out {
      x := Longest(act[..n], l, out, k);
      forall v | 0 <= v < n && act[v] && v != out ensures l[v] <= l[x] {
        assert act[..n][v];
      }
      if act[n] && n != out && l[n] > l[x] { x := n; }
    }
  }

  /** An entry that alone is longest can be shortened to the next length. */
  lemma Shorten(act: seq<bool>, w: seq<nat>, l: seq<nat>, m: nat, a: nat, b: nat)
    requires Fits(act, l, m) && |l| <= |w| && a < |l| && b < |l| && a != b && act[a] && act[b]
    requires l[b] <= l[a] && forall v :: 0 <= v < |l| && act[v] && v != a ==> l[v] <= l[b]
    ensures Fits(act, l[a := l[b]], m)
    ensures Sum(Costs(act, w, l[a := l[b]])) <= Sum(Costs(act, w, l))
  {
    hide Costs, Sum;
    RoomToShorten(act, l, m, a, b);
    ShareAt(act, l, m, a, l[b]);
    CostAt(act, w, l, a, l[b]);
    MulMono(l[b], l[a], w[a]);
  }

  lemma RoomToShorten(act: seq<bool>, l: seq<nat>, m: nat, a: nat, b: nat)
    requires Fits(act, l, m) && a < |l| && b < |l| && a != b && act[a] && act[b]
    requires l[b] <= l[a] && forall v :: 0 <= v < |l| && act[v] && v != a ==> l[v] <= l[b]
    ensures Sum(Shares(act, l, m)) - Share(l[a], m) + Share(l[b], m) <= Pow2(m)
  {
    hide Sum, Pow2, Multiple;
    NoMultiple(Pow2(m - l[b]));
    var s, p := Shares(act, l, m), Pow2(m - l[b]);
    var others := s[a := 0];
    forall i | 0 <= i < |s| ensures Multiple(others[i], p) {
      if i != a && act[i] { Pow2Divides(m - l[b], m - l[i]); }
    }
    SumOfMultiples(others, p);
    SumUpdate(s, a, 0);
    Pow2Divides(m - l[b], m);
    RoomForStep(Sum(others), Pow2(m), p);
  }

  /** Two entries cannot both have the empty code. */
  lemma BothPositive(act: seq<bool>, l: seq<nat>, m: nat, a: nat, b: nat)
    requires Fits(act, l, m) && a < |l| && b < |l| && a != b && act[a] && act[b] && l[a] == l[b]
    ensures l[a] >= 1
  {
    var s := Shares(act, l, m);
    SumUpdate(s, a, 0);
    SumUpdate(s[a := 0], b, 0);
  }

  /** The two lightest entries as siblings, at no cost. */
  lemma Siblings(act: seq<bool>, w: seq<nat>, l: seq<nat>, m: nat, a: nat, b: nat) returns (r: seq<nat>)
    requires Fits(act, l, m) && |l| <= |w| && TwoLightest(act, w, a, b)
    ensures Fits(act, r, m) && |r| == |l| && r[a] == r[b] >= 1
    ensures Sum(Costs(act, w, r)) <= Sum(Costs(act, w, l))
  {
    hide Fits, Costs;
    FitsSize(act, l, m);
    var x := Longest(act, l, -1, a);
    Exchange(act, w, l, m, a, x);
    var l1 := Swap(l, a, x);
    var y := Longest(act, l1, a, b);
    Exchange(act, w, l1, m, b, y);
    var l2 := Swap(l1, b, y);
    Shorten(act, w, l2, m, a, b);
    r := l2[a := l2[b]];
    BothPositive(act, r, m, a, b);
  }

  lemma FitsSize(act: seq<bool>, l: seq<nat>, m: nat)
    requires Fits(act, l, m)
    ensures |act| == |l|
  {
  }
}
