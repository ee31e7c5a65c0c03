/** Counting sort: where each value occurs, and all positions in stable order
    of their values. Canonical codes and the inverse block sort both use it. */
module CountingSort {

  /** The positions below k that hold the value n, in increasing order. */
  function Positions(s: seq<nat>, n: nat, k: nat): (r: seq<nat>)
    requires k <= |s|
    ensures |r| <= k
  {
    if k == 0 then []
    else if s[k - 1] == n then Positions(s, n, k - 1) + [k - 1]
    else Positions(s, n, k - 1)
  }

  lemma OneMorePosition(p: seq<nat>, s: nat, i: nat)
    requires i < |p|
    ensures Positions(p, s, i + 1) == Positions(p, s, i) + if s == p[i] then [i] else []
  {
  }

  lemma NoPositions(p: seq<nat>, s: nat)
    ensures Positions(p, s, 0) == []
  {
  }

  /** All positions of values below n, by value and then by position. */
  function StableOrder(s: seq<nat>, n: nat): seq<nat> {
    if n == 0 then [] else StableOrder(s, n - 1) + Positions(s, n - 1, |s|)
  }

  lemma {:induction false} PositionsGrow(s: seq<nat>, n: nat, i: nat, k: nat)
    requires i <= k <= |s|
    ensures |Positions(s, n, i)| <= |Positions(s, n, k)|
    ensures i < k && s[i] == n ==>
      |Positions(s, n, i)| < |Positions(s, n, k)| && Positions(s, n, k)[|Positions(s, n, i)|] == i
    decreases k
  {
    if i < k {
      PositionsGrow(s, n, i, k - 1);
    }
  }

  lemma {:induction false} OrderPrefix(s: seq<nat>, n: nat, m: nat)
    requires n <= m
    ensures |StableOrder(s, n)| <= |StableOrder(s, m)| && StableOrder(s, m)[..|StableOrder(s, n)|] == StableOrder(s, n)
    decreases m
  {
    if n < m {
      OrderPrefix(s, n, m - 1);
    }
  }

  lemma {:induction false} NothingBelow(s: seq<nat>, least: nat, n: nat, k: nat)
    requires n < least && k <= |s| && forall i :: 0 <= i < |s| ==> least <= s[i]
    ensures Positions(s, n, k) == []
  {
    if k > 0 {
      NothingBelow(s, least, n, k - 1);
    }
  }

  lemma {:induction false} OrderCounts(s: seq<nat>, n: nat, k: nat)
    requires k <= |s|
    ensures CountBelow(s, n, k) == (if n == 0 then 0 else CountBelow(s, n - 1, k) + |Positions(s, n - 1, k)|)
  {
    if k > 0 {
      OrderCounts(s, n, k - 1);
    }
  }

  /** How many of the first k values lie below n. */
  function CountBelow(s: seq<nat>, n: nat, k: nat): (c: nat)
    requires k <= |s|
    ensures c <= k
  {
    if k == 0 then 0 else CountBelow(s, n, k - 1) + (if s[k - 1] < n then 1 else 0)
  }

  lemma {:induction false} CountBelowZero(s: seq<nat>, k: nat)
    requires k <= |s|
    ensures CountBelow(s, 0, k) == 0
  {
    if k > 0 {
      CountBelowZero(s, k - 1);
    }
  }

  lemma {:induction false} CountBelowMono(s: seq<nat>, a: nat, c: nat, k: nat)
    requires a <= c && k <= |s|
    ensures CountBelow(s, a, k) <= CountBelow(s, c, k)
  {
    if k > 0 {
      CountBelowMono(s, a, c, k - 1);
    }
  }

  lemma {:induction false} OrderLength(s: seq<nat>, n: nat)
    ensures |StableOrder(s, n)| == CountBelow(s, n, |s|)
  {
    OrderCounts(s, n, |s|);
    if n > 0 {
      OrderLength(s, n - 1);
    }
  }

  lemma {:induction false} AllBelow(s: seq<nat>, n: nat, k: nat)
    requires k <= |s| && forall i :: 0 <= i < |s| ==> s[i] < n
    ensures CountBelow(s, n, k) == k
  {
    if k > 0 {
      AllBelow(s, n, k - 1);
    }
  }

  lemma OrderIsFull(s: seq<nat>, n: nat)
    requires forall i :: 0 <= i < |s| ==> s[i] < n
    ensures |StableOrder(s, n)| == |s|
  {
    AllBelow(s, n, |s|);
    OrderLength(s, n);
  }

  lemma {:induction false} PositionsFacts(s: seq<nat>, n: nat, k: nat)
    requires k <= |s|
    ensures forall x :: 0 <= x < |Positions(s, n, k)| ==> Positions(s, n, k)[x] < k && s[Positions(s, n, k)[x]] == n
    ensures forall x, y :: 0 <= x < y < |Positions(s, n, k)| ==> Positions(s, n, k)[x] < Positions(s, n, k)[y]
  {
    if k > 0 {
      PositionsFacts(s, n, k - 1);
    }
  }

  /** Position i comes before position j in the stable order. */
  predicate Before(s: seq<nat>, i: nat, j: nat)
    requires i < |s| && j < |s|
  {
    s[i] < s[j] || (s[i] == s[j] && i < j)
  }

  lemma {:induction false} StableOrderFacts(s: seq<nat>, m: nat)
    ensures forall x :: 0 <= x < |StableOrder(s, m)| ==> StableOrder(s, m)[x] < |s| && s[StableOrder(s, m)[x]] < m
    ensures forall x, y :: 0 <= x < y < |StableOrder(s, m)| ==> Before(s, StableOrder(s, m)[x], StableOrder(s, m)[y])
  {
    if m > 0 {
      StableOrderFacts(s, m - 1);
      PositionsFacts(s, m - 1, |s|);
      var a, b := StableOrder(s, m - 1), Positions(s, m - 1, |s|);
      forall x, y | 0 <= x < y < |a + b| ensures Before(s, (a + b)[x], (a + b)[y]) {
        assert y >= |a| ==> (a + b)[y] == b[y - |a|];
        assert x >= |a| ==> (a + b)[x] == b[x - |a|];
      }
    }
  }

  /** Where position i lands in the stable order. */
  function Row(s: seq<nat>, i: nat): nat
    requires i < |s|
  {
    CountBelow(s, s[i], |s|) + |Positions(s, s[i], i)|
  }

  lemma RowFindsPosition(s: seq<nat>, m: nat, i: nat)
    requires i < |s| && s[i] < m
    ensures Row(s, i) < |StableOrder(s, m)| && StableOrder(s, m)[Row(s, i)] == i
  {
    var n := s[i];
    OrderLength(s, n);
    OrderPrefix(s, n + 1, m);
    PositionsGrow(s, n, i, |s|);
    var o, r := StableOrder(s, n + 1), |Positions(s, n, i)|;
    assert o[|StableOrder(s, n)| + r] == Positions(s, n, |s|)[r];
    assert StableOrder(s, m)[Row(s, i)] == StableOrder(s, m)[..|o|][Row(s, i)];
  }

  lemma PositionFindsRow(s: seq<nat>, m: nat, k: nat)
    requires k < |StableOrder(s, m)|
    ensures StableOrder(s, m)[k] < |s| && Row(s, StableOrder(s, m)[k]) == k
  {
    StableOrderFacts(s, m);
    RowFindsPosition(s, m, StableOrder(s, m)[k]);
    StableOrderDistinct(s, m, Row(s, StableOrder(s, m)[k]), k);
  }

  lemma StableOrderDistinct(s: seq<nat>, m: nat, x: nat, y: nat)
    requires x < |StableOrder(s, m)| && y < |StableOrder(s, m)|
    ensures StableOrder(s, m)[x] == StableOrder(s, m)[y] ==> x == y
  {
    StableOrderFacts(s, m);
  }

  /** In a sequence of one value. */
  lemma {:induction false} ConstantCounts(s: seq<nat>, c: nat, n: nat, k: nat)
    requires k <= |s| && forall i :: 0 <= i < |s| ==> s[i] == c
    ensures CountBelow(s, n, k) == (if c < n then k else 0) && |Positions(s, n, k)| == if n == c then k else 0
  {
    if k > 0 {
      ConstantCounts(s, c, n, k - 1);
    }
  }
}
