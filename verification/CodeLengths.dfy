/** Huffman code lengths (huffman.c): a heap of packed weights, a parent
    forest, and a rescaling loop that retries until no code is too long. */
module CodeLengths {
  import opened Arith
  import opened OptimalCodes

  // A packed weight holds a frequency above an eight-bit depth.
  function WeightOf(w: nat): nat { w / 256 }

  function DepthOf(w: nat): nat { w % 256 }

  function Max(a: nat, b: nat): nat { if a > b then a else b }

  /** The `|` of the source is a sum here because the low byte of the added
      weights is zero and the new depth still fits in it. */
  function AddWeights(a: nat, b: nat): (r: nat)
    requires DepthOf(a) < 255 && DepthOf(b) < 255
    ensures WeightOf(r) == WeightOf(a) + WeightOf(b)
    ensures DepthOf(r) == 1 + Max(DepthOf(a), DepthOf(b))
  {
    (WeightOf(a) + WeightOf(b)) * 256 + 1 + Max(DepthOf(a), DepthOf(b))
  }

  // ---------- The heap ----------

  /** Entries 1..n of the heap hold pairwise different nodes. */
  ghost predicate DistinctEntries(h: seq<nat>, n: nat)
    requires n < |h|
  {
    forall i, j :: 1 <= i < j <= n ==> h[i] != h[j]
  }

  ghost function Members(h: seq<nat>, n: nat): set<nat>
    requires n < |h|
  {
    set i | 1 <= i <= n :: h[i]
  }

  ghost predicate EntriesFit(h: seq<nat>, n: nat, w: seq<nat>) {
    && n < |h| && |w| > 0 && w[0] == 0 && h[0] == 0
    && (forall i :: 1 <= i <= n ==> 0 < h[i] < |w| && w[h[i]] > 0)
  }

  ghost predicate Ordered(h: seq<nat>, n: nat, w: seq<nat>)
    requires EntriesFit(h, n, w)
  {
    forall j :: 2 <= j <= n ==> w[h[j / 2]] <= w[h[j]]
  }

  /** No node is lighter than its heap parent, `hole` and its children excepted. */
  ghost predicate OrderedBut(h: seq<nat>, n: nat, w: seq<nat>, hole: nat)
    requires EntriesFit(h, n, w)
  {
    && (forall j :: 2 <= j <= n && j != hole && j / 2 != hole ==> w[h[j / 2]] <= w[h[j]])
    && (forall j :: 2 <= j <= n && j / 2 == hole && 1 <= hole / 2 ==> w[h[hole / 2]] <= w[h[j]])
  }

  /** Only the edge above `z` may be out of order. */
  ghost predicate Rising(h: seq<nat>, n: nat, w: seq<nat>, z: nat)
    requires EntriesFit(h, n, w)
  {
    && 1 <= z <= n
    && OrderedBut(h, n, w, z)
    && (forall j :: 2 <= j <= n && j / 2 == z ==> w[h[z]] <= w[h[j]])
  }

  /** Only the edges below `z` may be out of order. */
  ghost predicate Sinking(h: seq<nat>, n: nat, w: seq<nat>, z: nat)
    requires EntriesFit(h, n, w)
  {
    && 1 <= z <= n
    && OrderedBut(h, n, w, z)
    && (2 <= z ==> w[h[z / 2]] <= w[h[z]])
  }

  ghost predicate HeapHolds(h: seq<nat>, n: nat, w: seq<nat>, members: set<nat>) {
    EntriesFit(h, n, w) && DistinctEntries(h, n) && Members(h, n) == members
  }

  ghost predicate HeapState(h: seq<nat>, n: nat, w: seq<nat>, members: set<nat>) {
    HeapHolds(h, n, w, members) && Ordered(h, n, w)
  }

  ghost predicate RiseState(h: seq<nat>, n: nat, w: seq<nat>, z: nat, members: set<nat>) {
    HeapHolds(h, n, w, members) && Rising(h, n, w, z)
  }

  ghost predicate SinkState(h: seq<nat>, n: nat, w: seq<nat>, z: nat, members: set<nat>) {
    HeapHolds(h, n, w, members) && Sinking(h, n, w, z)
  }

  lemma SwapHolds(h: seq<nat>, n: nat, w: seq<nat>, members: set<nat>, i: nat, j: nat)
    requires HeapHolds(h, n, w, members) && 1 <= i <= n && 1 <= j <= n
    ensures HeapHolds(Swap(h, i, j), n, w, members)
  {
    var k := Swap(h, i, j);
    forall v | v in members ensures v in Members(k, n) {
      var p :| 1 <= p <= n && h[p] == v;
      assert k[if p == i then j else if p == j then i else p] == v;
    }
  }

  lemma {:induction false} RootIsLightest(h: seq<nat>, n: nat, w: seq<nat>, j: nat)
    requires EntriesFit(h, n, w) && Ordered(h, n, w) && 1 <= j <= n
    ensures w[h[1]] <= w[h[j]]
  {
    if j > 1 {
      RootIsLightest(h, n, w, j / 2);
    }
  }

  lemma LightestMember(h: seq<nat>, n: nat, w: seq<nat>, members: set<nat>, v: nat)
    requires HeapState(h, n, w, members) && v in members
    ensures 1 <= n && h[1] in members && w[h[1]] <= w[v]
  {
    var j :| 1 <= j <= n && h[j] == v;
    RootIsLightest(h, n, w, j);
  }

  lemma RiseStart(h: seq<nat>, n: nat, w: seq<nat>, members: set<nat>)
    requires 1 <= n < |h| && HeapState(h, n - 1, w, members)
    requires 0 < h[n] < |w| && w[h[n]] > 0 && h[n] !in members
    ensures RiseState(h, n, w, n, members + {h[n]})
  {
    forall i | 1 <= i < n ensures h[i] != h[n] {
      assert h[i] in Members(h, n - 1);
    }
    assert Members(h, n) == Members(h, n - 1) + {h[n]};
    forall j | 2 <= j <= n && j != n && j / 2 != n ensures w[h[j / 2]] <= w[h[j]] {
    }
  }

  lemma RiseStep(h: seq<nat>, n: nat, w: seq<nat>, z: nat, members: set<nat>)
    requires RiseState(h, n, w, z, members)
    requires w[h[z]] < w[h[z / 2]]
    ensures 2 <= z && RiseState(Swap(h, z, z / 2), n, w, z / 2, members)
  {
    hide DistinctEntries, Members;
    assert 2 <= z;
    var k, p := Swap(h, z, z / 2), z / 2;
    SwapHolds(h, n, w, members, z, p);
    forall j | 2 <= j <= n && j != p && j / 2 != p ensures w[k[j / 2]] <= w[k[j]] {
      if j / 2 == z {
        assert w[h[z / 2]] <= w[h[j]];
      }
    }
    forall j | 2 <= j <= n && j / 2 == p && 1 <= p / 2 ensures w[k[p / 2]] <= w[k[j]] {
      assert w[h[p / 2]] <= w[h[p]];
    }
  }

  lemma RiseDone(h: seq<nat>, n: nat, w: seq<nat>, z: nat, members: set<nat>)
    requires RiseState(h, n, w, z, members)
    requires w[h[z]] >= w[h[z / 2]]
    ensures HeapState(h, n, w, members)
  {
    hide DistinctEntries, Members;
  }

  lemma SinkStart(h: seq<nat>, n: nat, w: seq<nat>, members: set<nat>)
    requires 1 <= n && HeapState(h, n, w, members)
    ensures h[1] in members
    ensures n == 1 ==> HeapState(h[1 := h[n]], 0, w, members - {h[1]})
    ensures n > 1 ==> SinkState(h[1 := h[n]], n - 1, w, 1, members - {h[1]})
  {
    var k := h[1 := h[n]];
    forall v | v in members - {h[1]} ensures v in Members(k, n - 1) {
      var p :| 1 <= p <= n && h[p] == v;
      assert k[if p == n then 1 else p] == v;
    }
  }

  lemma SinkStep(h: seq<nat>, n: nat, w: seq<nat>, z: nat, y: nat, members: set<nat>)
    requires SinkState(h, n, w, z, members)
    requires y == 2 * z <= n || y == 2 * z + 1 <= n
    requires y == 2 * z < n ==> w[h[y]] <= w[h[y + 1]]
    requires y == 2 * z + 1 ==> w[h[y]] <= w[h[y - 1]]
    requires w[h[y]] <= w[h[z]]
    ensures SinkState(Swap(h, z, y), n, w, y, members)
  {
    hide DistinctEntries, Members;
    var k := Swap(h, z, y);
    SwapHolds(h, n, w, members, z, y);
    forall j | 2 <= j <= n && j / 2 == z ensures w[h[y]] <= w[h[j]] {
      assert j == 2 * z || j == 2 * z + 1;
    }
    forall j | 2 <= j <= n && j != y && j / 2 != y ensures w[k[j / 2]] <= w[k[j]] {
      if j == z {
        assert w[h[z / 2]] <= w[h[y]];
      }
    }
    forall j | 2 <= j <= n && j / 2 == y && 1 <= y / 2 ensures w[k[y / 2]] <= w[k[j]] {
      assert w[h[y]] <= w[h[j]];
    }
  }

  lemma SinkDone(h: seq<nat>, n: nat, w: seq<nat>, z: nat, members: set<nat>)
    requires SinkState(h, n, w, z, members)
    requires 2 * z <= n ==> w[h[z]] <= w[h[2 * z]]
    requires 2 * z < n ==> w[h[z]] <= w[h[2 * z + 1]]
    ensures HeapState(h, n, w, members)
  {
    hide DistinctEntries, Members;
    forall j | 2 <= j <= n ensures w[h[j / 2]] <= w[h[j]] {
      if j / 2 == z {
        assert j == 2 * z || j == 2 * z + 1;
      }
    }
  }

  /** UPHEAP: the entry at `n` rises until its heap parent is no heavier. */
  method UpHeap(heap: array<nat>, weight: array<nat>, n: nat, ghost members: set<nat>)
    requires 1 <= n < heap.Length && heap != weight
    requires HeapState(heap[..], n - 1, weight[..], members)
    requires 0 < heap[n] < weight.Length && weight[heap[n]] > 0 && heap[n] !in members
    modifies heap
    ensures HeapState(heap[..], n, weight[..], members + {old(heap[n])})
  {
    hide Rising, Ordered, DistinctEntries, Members;
    var zz, tmp := n, heap[n];
    ghost var h, w, all := heap[..], weight[..], members + {heap[n]};
    RiseStart(h, n, w, members);
    while weight[tmp] < weight[heap[zz / 2]]
      invariant 1 <= zz <= n && weight[..] == w && |h| == heap.Length && h[zz] == tmp
      invariant forall j :: 0 <= j < heap.Length && j != zz ==> heap[j] == h[j]
      invariant RiseState(h, n, w, zz, all)
      decreases zz
    {
      RiseStep(h, n, w, zz, all);
      h := Swap(h, zz, zz / 2);
      heap[zz] := heap[zz / 2];
      zz := zz / 2;
    }
    RiseDone(h, n, w, zz, all);
    heap[zz] := tmp;
    assert heap[..] == h;
  }

  /** DOWNHEAP(1): the entry at the root sinks until no child is lighter. */
  method DownHeap(heap: array<nat>, weight: array<nat>, n: nat, ghost members: set<nat>)
    requires heap != weight && n + 1 < heap.Length
    requires if n == 0 then HeapState(heap[..], n, weight[..], members)
             else SinkState(heap[..], n, weight[..], 1, members)
    modifies heap
    ensures HeapState(heap[..], n, weight[..], members)
  {
    hide Sinking, Ordered, DistinctEntries, Members;
    var zz, tmp := 1, heap[1];
    ghost var h, w := heap[..], weight[..];
    while true
      invariant 1 <= zz <= Max(1, n) && weight[..] == w && |h| == heap.Length && h[zz] == tmp
      invariant forall j :: 0 <= j < heap.Length && j != zz ==> heap[j] == h[j]
      invariant n == 0 ==> h == old(heap[..])
      invariant n > 0 ==> SinkState(h, n, w, zz, members)
      decreases n - zz
    {
      var yy := zz * 2;
      if yy > n { break; }
      if yy < n && weight[heap[yy + 1]] < weight[heap[yy]] {
        yy := yy + 1;
      }
      if weight[tmp] < weight[heap[yy]] { break; }
      SinkStep(h, n, w, zz, yy, members);
      h := Swap(h, zz, yy);
      heap[zz] := heap[yy];
      zz := yy;
    }
    if n > 0 { SinkDone(h, n, w, zz, members); }
    heap[zz] := tmp;
    assert heap[..] == h;
  }

  // ---------- Depth is at most logarithmic ----------

  function Fib(n: nat): nat {
    if n < 2 then n else Fib(n - 1) + Fib(n - 2)
  }

  lemma {:induction false} FibMono(a: nat, b: nat)
    requires a <= b
    ensures Fib(a) <= Fib(b)
    decreases b
  {
    if a < b {
      FibMono(a, b - 1);
    }
  }

  lemma FibValues()
    ensures Fib(15) == 610 && Fib(35) == 9227465
  {
    assert Fib(4) == 3 && Fib(5) == 5 && Fib(6) == 8 && Fib(7) == 13 && Fib(8) == 21;
    assert Fib(9) == 34 && Fib(10) == 55 && Fib(11) == 89 && Fib(12) == 144 && Fib(13) == 233;
    assert Fib(14) == 377 && Fib(15) == 610 && Fib(16) == 987 && Fib(17) == 1597;
    assert Fib(18) == 2584 && Fib(19) == 4181 && Fib(20) == 6765 && Fib(21) == 10946;
    assert Fib(22) == 17711 && Fib(23) == 28657 && Fib(24) == 46368 && Fib(25) == 75025;
    assert Fib(26) == 121393 && Fib(27) == 196418 && Fib(28) == 317811 && Fib(29) == 514229;
    assert Fib(30) == 832040 && Fib(31) == 1346269 && Fib(32) == 2178309 && Fib(33) == 3524578;
    assert Fib(34) == 5702887 && Fib(35) == 9227465;
  }

  /** A node whose weight is below Fib(n + 2) has depth below n. */
  lemma DepthBound(depth: nat, weight: nat, n: nat)
    requires weight >= Fib(depth + 2) && weight < Fib(n + 2)
    ensures depth < n
  {
    if depth >= n {
      FibMono(n + 2, depth + 2);
    }
  }

  // ---------- The forest ----------

  ghost function Live(parent: seq<int>, nodes: nat): set<nat>
    requires nodes < |parent|
  {
    set v | 1 <= v <= nodes && parent[v] == -1
  }

  ghost predicate ParentsAbove(parent: seq<int>, nodes: nat) {
    && nodes < |parent|
    && (forall v :: 1 <= v <= nodes ==> parent[v] == -1 || v < parent[v] <= nodes)
  }

  ghost predicate TwoKids(parent: seq<int>, nodes: nat, k: nat, c: (nat, nat))
    requires nodes < |parent|
  {
    && 1 <= c.0 < k && 1 <= c.1 < k && c.0 != c.1 && k <= nodes
    && parent[c.0] == k && parent[c.1] == k
    && (forall v :: 1 <= v <= nodes && parent[v] == k ==> v == c.0 || v == c.1)
  }

  /** Nodes 1..leaves are the symbols; every later node joins exactly two. */
  ghost predicate Forest(parent: seq<int>, leaves: nat, nodes: nat, kids: map<nat, (nat, nat)>) {
    && ParentsAbove(parent, nodes)
    && (forall v :: 1 <= v <= nodes ==> parent[v] == -1 || leaves < parent[v])
    && (forall k :: leaves < k <= nodes ==> k in kids && TwoKids(parent, nodes, k, kids[k]))
  }

  /** Fibonacci growth: a node of depth d weighs at least Fib(d + 2), and a
      live node at least Fib(top + 1), `top` bounding every depth so far. */
  ghost predicate Heavy(parent: seq<int>, w: seq<nat>, nodes: nat, top: nat) {
    && nodes < |parent| && nodes < |w|
    && (forall v :: 1 <= v <= nodes ==> WeightOf(w[v]) >= Fib(DepthOf(w[v]) + 2) && DepthOf(w[v]) <= top)
    && (forall v :: 1 <= v <= nodes && parent[v] == -1 ==> WeightOf(w[v]) >= Fib(top + 1))
  }

  /** The recorded depth grows along every parent link. */
  ghost predicate Deepening(parent: seq<int>, w: seq<nat>, nodes: nat) {
    && nodes < |parent| && nodes < |w|
    && (forall v, p :: 1 <= v <= nodes && 1 <= p <= nodes && parent[v] == p ==>
          DepthOf(w[v]) < DepthOf(w[p]))
  }

  ghost function LiveWeight(parent: seq<int>, w: seq<nat>, k: nat): nat
    requires k < |parent| && k < |w|
  {
    if k == 0 then 0
    else LiveWeight(parent, w, k - 1) + (if parent[k] == -1 then WeightOf(w[k]) else 0)
  }

  lemma {:induction false} LiveWeightAtLeast(parent: seq<int>, w: seq<nat>, k: nat, v: nat)
    requires k < |parent| && k < |w| && 1 <= v <= k && parent[v] == -1
    ensures WeightOf(w[v]) <= LiveWeight(parent, w, k)
  {
    if v < k {
      LiveWeightAtLeast(parent, w, k - 1, v);
    }
  }

  lemma {:induction false} LiveWeightJoin(parent: seq<int>, w: seq<nat>, k: nat, c: nat, p: int, w': seq<nat>)
    requires k < |parent| && k < |w| == |w'| && 1 <= c < |parent| && parent[c] == -1 && p != -1
    requires forall v :: 1 <= v <= k ==> w'[v] == w[v]
    ensures LiveWeight(parent[c := p], w', k)
         == LiveWeight(parent, w, k) - (if c <= k then WeightOf(w[c]) else 0)
  {
    if k > 0 {
      LiveWeightJoin(parent, w, k - 1, c, p, w');
    }
  }

  ghost function JoinParent(parent: seq<int>, n1: nat, n2: nat, k: nat): seq<int>
    requires n1 < |parent| && n2 < |parent| && k < |parent|
  {
    parent[n1 := k][n2 := k][k := -1]
  }

  lemma JoinForest(parent: seq<int>, leaves: nat, nodes: nat, kids: map<nat, (nat, nat)>, n1: nat, n2: nat)
    requires Forest(parent, leaves, nodes, kids) && 1 <= leaves <= nodes && nodes + 1 < |parent|
    requires 1 <= n1 <= nodes && 1 <= n2 <= nodes && n1 != n2 && parent[n1] == -1 && parent[n2] == -1
    ensures Forest(JoinParent(parent, n1, n2, nodes + 1), leaves, nodes + 1, kids[nodes + 1 := (n1, n2)])
    ensures Live(JoinParent(parent, n1, n2, nodes + 1), nodes + 1)
         == Live(parent, nodes) - {n1} - {n2} + {nodes + 1}
  {
    var p', k := JoinParent(parent, n1, n2, nodes + 1), nodes + 1;
    var kids' := kids[k := (n1, n2)];
    forall q | leaves < q <= k ensures q in kids' && TwoKids(p', k, q, kids'[q]) {
      if q < k {
        assert TwoKids(parent, nodes, q, kids[q]);
      }
    }
  }

  lemma WeightMono(a: nat, b: nat)
    requires a <= b
    ensures WeightOf(a) <= WeightOf(b)
  {
  }

  /** The two lightest live nodes, ready to be joined. */
  ghost predicate Lightest(parent: seq<int>, w: seq<nat>, nodes: nat, n1: nat, n2: nat) {
    && ParentsAbove(parent, nodes) && nodes + 1 < |parent| && nodes + 1 < |w|
    && 1 <= n1 <= nodes && 1 <= n2 <= nodes && n1 != n2 && parent[n1] == -1 && parent[n2] == -1
    && w[n1] <= w[n2]
    && (forall v :: 1 <= v <= nodes && parent[v] == -1 && v != n1 ==> w[n2] <= w[v])
    && DepthOf(w[n1]) < 255 && DepthOf(w[n2]) < 255
  }

  /** Joining: the new node's depth and weight, and what the new depth asks of
      the roots. */
  lemma JoinedNode(parent: seq<int>, w: seq<nat>, nodes: nat, top: nat, n1: nat, n2: nat)
    requires Lightest(parent, w, nodes, n1, n2) && Heavy(parent, w, nodes, top)
    ensures var x := AddWeights(w[n1], w[n2]);
            && WeightOf(x) >= Fib(DepthOf(x) + 2) && WeightOf(x) >= Fib(Max(top, DepthOf(x)) + 1)
            && (DepthOf(x) > top ==> WeightOf(w[n2]) >= Fib(DepthOf(x) + 1))
  {
    hide WeightOf, DepthOf, AddWeights, Fib;
    var x := AddWeights(w[n1], w[n2]);
    // The deeper child c brings Fib(depth + 2), its sibling Fib(depth + 1).
    var swap := DepthOf(w[n1]) > DepthOf(w[n2]);
    var c, s := if swap then n1 else n2, if swap then n2 else n1;
    var d := DepthOf(w[c]);
    FibMono(d + 1, top + 1);
    FibStep(d + 1);
    assert DepthOf(x) == d + 1 && WeightOf(x) >= Fib(d + 3);
    FibMono(Max(top, d + 1) + 1, top + 2);
    FibStep(top);
    WeightMono(w[n1], w[n2]);
  }

  lemma JoinHeavy(parent: seq<int>, w: seq<nat>, nodes: nat, top: nat, n1: nat, n2: nat)
    requires Lightest(parent, w, nodes, n1, n2) && Heavy(parent, w, nodes, top)
    ensures var x := AddWeights(w[n1], w[n2]);
            Heavy(JoinParent(parent, n1, n2, nodes + 1), w[nodes + 1 := x], nodes + 1, Max(top, DepthOf(x)))
  {
    hide WeightOf, DepthOf, AddWeights, Fib;
    var k, x := nodes + 1, AddWeights(w[n1], w[n2]);
    JoinedNode(parent, w, nodes, top, n1, n2);
    var p', w', top' := JoinParent(parent, n1, n2, k), w[k := x], Max(top, DepthOf(x));
    forall v | 1 <= v <= k && p'[v] == -1 ensures WeightOf(w'[v]) >= Fib(top' + 1) {
      if v < k && top' > top {
        WeightMono(w[n2], w[v]);
      }
    }
  }

  lemma JoinDeepening(parent: seq<int>, w: seq<nat>, nodes: nat, n1: nat, n2: nat)
    requires Lightest(parent, w, nodes, n1, n2) && Deepening(parent, w, nodes)
    ensures Deepening(JoinParent(parent, n1, n2, nodes + 1),
                      w[nodes + 1 := AddWeights(w[n1], w[n2])], nodes + 1)
  {
    hide WeightOf, DepthOf, AddWeights;
    var k := nodes + 1;
    var p', w' := JoinParent(parent, n1, n2, k), w[k := AddWeights(w[n1], w[n2])];
    forall v, p | 1 <= v <= k && 1 <= p <= k && p'[v] == p ensures DepthOf(w'[v]) < DepthOf(w'[p]) {
      assert v == n1 || v == n2 || parent[v] == p;
    }
    assert Deepening(p', w', k);
  }

  /** Node k was made of the two lightest nodes that had no parent then. */
  ghost predicate Joins(parent: seq<int>, w: seq<nat>, k: nat, c: (nat, nat))
    requires k < |parent| && k < |w|
  {
    && 1 <= c.0 < k && 1 <= c.1 < k && c.0 != c.1
    && WeightOf(w[k]) == WeightOf(w[c.0]) + WeightOf(w[c.1]) && WeightOf(w[c.0]) <= WeightOf(w[c.1])
    && (forall v :: 1 <= v < k && (parent[v] == -1 || parent[v] >= k) && v != c.0 ==> WeightOf(w[c.1]) <= WeightOf(w[v]))
  }

  ghost predicate Greedy(parent: seq<int>, w: seq<nat>, leaves: nat, nodes: nat, kids: map<nat, (nat, nat)>) {
    && nodes < |parent| && nodes < |w|
    && (forall k :: leaves < k <= nodes ==> k in kids && Joins(parent, w, k, kids[k]))
  }

  lemma JoinGreedy(parent: seq<int>, w: seq<nat>, leaves: nat, nodes: nat, kids: map<nat, (nat, nat)>, n1: nat, n2: nat)
    requires Lightest(parent, w, nodes, n1, n2) && Greedy(parent, w, leaves, nodes, kids)
    ensures Greedy(JoinParent(parent, n1, n2, nodes + 1), w[nodes + 1 := AddWeights(w[n1], w[n2])], leaves, nodes + 1,
                   kids[nodes + 1 := (n1, n2)])
  {
    hide WeightOf, DepthOf, AddWeights;
    var k := nodes + 1;
    var p', w' := JoinParent(parent, n1, n2, k), w[k := AddWeights(w[n1], w[n2])];
    WeightMono(w[n1], w[n2]);
    forall v | 1 <= v < k && (p'[v] == -1 || p'[v] >= k) && v != n1 ensures WeightOf(w[n2]) <= WeightOf(w'[v]) {
      if v != n2 { WeightMono(w[n2], w[v]); }
    }
    forall q | leaves < q <= nodes ensures Joins(p', w', q, kids[q]) {
      assert Joins(parent, w, q, kids[q]);
    }
  }

  lemma FibStep(n: nat)
    ensures Fib(n + 2) == Fib(n + 1) + Fib(n)
  {
  }

  lemma JoinLiveWeight(parent: seq<int>, w: seq<nat>, nodes: nat, n1: nat, n2: nat, x: nat)
    requires nodes + 1 < |parent| && nodes + 1 < |w|
    requires 1 <= n1 <= nodes && 1 <= n2 <= nodes && n1 != n2 && parent[n1] == -1 && parent[n2] == -1
    requires WeightOf(x) == WeightOf(w[n1]) + WeightOf(w[n2])
    ensures LiveWeight(JoinParent(parent, n1, n2, nodes + 1), w[nodes + 1 := x], nodes + 1)
         == LiveWeight(parent, w, nodes)
  {
    var k, w' := nodes + 1, w[nodes + 1 := x];
    LiveWeightJoin(parent, w, nodes, n1, k, w');
    LiveWeightJoin(parent[n1 := k], w', nodes, n2, k, w');
    LiveWeightPrefix(parent[n1 := k][n2 := k], JoinParent(parent, n1, n2, k), w', w', nodes);
  }

  lemma {:induction false} LiveWeightPrefix(p: seq<int>, q: seq<int>, w: seq<nat>, x: seq<nat>, k: nat)
    requires k < |p| && k < |q| && k < |w| && k < |x|
    requires forall v :: 1 <= v <= k ==> p[v] == q[v] && w[v] == x[v]
    ensures LiveWeight(p, w, k) == LiveWeight(q, x, k)
  {
    if k > 0 {
      LiveWeightPrefix(p, q, w, x, k - 1);
    }
  }

  // ---------- Levels and Kraft's sum ----------

  /** How many parent links lead from a node to its root. */
  ghost function Level(parent: seq<int>, nodes: nat, v: nat): nat
    requires ParentsAbove(parent, nodes) && 1 <= v <= nodes
    decreases nodes - v
  {
    if parent[v] == -1 then 0 else 1 + Level(parent, nodes, parent[v])
  }

  /** The Kraft sum of code lengths, scaled by 2^m. */
  ghost function Kraft(len: seq<nat>, m: nat): nat {
    if |len| == 0 then 0 else
      var last := len[|len| - 1];
      Kraft(len[..|len| - 1], m) + (if last <= m then Pow2(m - last) else 0)
  }

  /** The scaled sum over the nodes of 1..j whose parent lies beyond k. */
  ghost function Frontier(parent: seq<int>, nodes: nat, m: nat, k: nat, j: nat): nat
    requires ParentsAbove(parent, nodes) && j <= nodes
    decreases j
  {
    if j == 0 then 0 else
      var level := Level(parent, nodes, j);
      var term := if (parent[j] == -1 || parent[j] > k) && level <= m then Pow2(m - level) else 0;
      Frontier(parent, nodes, m, k, j - 1) + term
  }

  lemma {:induction false} FrontierStep(parent: seq<int>, leaves: nat, nodes: nat, kids: map<nat, (nat, nat)>,
                                        m: nat, k: nat, j: nat)
    requires Forest(parent, leaves, nodes, kids) && leaves < k <= nodes && j < k
    requires Level(parent, nodes, k) < m
    ensures var half := Pow2(m - Level(parent, nodes, k) - 1);
            Frontier(parent, nodes, m, k - 1, j) == Frontier(parent, nodes, m, k, j)
              + (if kids[k].0 <= j then half else 0) + (if kids[k].1 <= j then half else 0)
    decreases j
  {
    assert TwoKids(parent, nodes, k, kids[k]);
    if j > 0 {
      FrontierStep(parent, leaves, nodes, kids, m, k, j - 1);
    }
  }

  /** Splitting inner nodes from the root down keeps the sum at 2^m. */
  lemma {:induction false} FrontierIsFull(parent: seq<int>, leaves: nat, nodes: nat, kids: map<nat, (nat, nat)>,
                                          m: nat, k: nat)
    requires Forest(parent, leaves, nodes, kids) && 1 <= leaves <= k <= nodes
    requires Live(parent, nodes) == {nodes}
    requires forall v :: 1 <= v <= nodes ==> Level(parent, nodes, v) <= m
    ensures Frontier(parent, nodes, m, k, k) == Pow2(m)
    decreases nodes - k
  {
    if k == nodes {
      assert nodes in Live(parent, nodes);
      forall v | 1 <= v < nodes ensures parent[v] != -1 {
        assert v !in Live(parent, nodes);
      }
      OnlyTheRoot(parent, nodes, m, nodes - 1);
    } else {
      var q := k + 1;
      FrontierIsFull(parent, leaves, nodes, kids, m, q);
      assert TwoKids(parent, nodes, q, kids[q]);
      assert Level(parent, nodes, kids[q].0) == 1 + Level(parent, nodes, q);
      FrontierStep(parent, leaves, nodes, kids, m, q, k);
    }
  }

  lemma {:induction false} OnlyTheRoot(parent: seq<int>, nodes: nat, m: nat, j: nat)
    requires ParentsAbove(parent, nodes) && j < nodes
    requires forall v :: 1 <= v < nodes ==> parent[v] != -1
    ensures Frontier(parent, nodes, m, nodes, j) == 0
    decreases j
  {
    if j > 0 {
      OnlyTheRoot(parent, nodes, m, j - 1);
    }
  }

  /** Inner nodes are no deeper than the leaves below them. */
  lemma {:induction false} LevelsFromLeaves(parent: seq<int>, leaves: nat, nodes: nat, kids: map<nat, (nat, nat)>,
                                            m: nat, v: nat)
    requires Forest(parent, leaves, nodes, kids) && 1 <= v <= nodes
    requires forall i :: 1 <= i <= leaves && i <= nodes ==> Level(parent, nodes, i) <= m
    ensures Level(parent, nodes, v) <= m
  {
    if v > leaves {
      assert TwoKids(parent, nodes, v, kids[v]);
      LevelsFromLeaves(parent, leaves, nodes, kids, m, kids[v].0);
    }
  }

  lemma {:induction false} KraftIsFrontier(parent: seq<int>, leaves: nat, nodes: nat, kids: map<nat, (nat, nat)>,
                                           len: seq<nat>, m: nat)
    requires Forest(parent, leaves, nodes, kids) && |len| <= leaves <= nodes
    requires forall i :: 0 <= i < |len| ==> len[i] == Level(parent, nodes, i + 1)
    ensures Kraft(len, m) == Frontier(parent, nodes, m, leaves, |len|)
    decreases |len|
  {
    if |len| > 0 {
      KraftIsFrontier(parent, leaves, nodes, kids, len[..|len| - 1], m);
    }
  }

  /** Reading leaf levels off a one-rooted forest gives a complete code. */
  lemma CompleteCode(parent: seq<int>, leaves: nat, nodes: nat, kids: map<nat, (nat, nat)>, len: seq<nat>, m: nat)
    requires Forest(parent, leaves, nodes, kids) && 1 <= |len| == leaves <= nodes
    requires Live(parent, nodes) == {nodes}
    requires forall i :: 0 <= i < leaves ==> len[i] == Level(parent, nodes, i + 1) <= m
    ensures Kraft(len, m) == Pow2(m)
  {
    forall v | 1 <= v <= nodes ensures Level(parent, nodes, v) <= m {
      forall i | 1 <= i <= leaves && i <= nodes ensures Level(parent, nodes, i) <= m {
        assert len[i - 1] == Level(parent, nodes, i);
      }
      LevelsFromLeaves(parent, leaves, nodes, kids, m, v);
    }
    KraftIsFrontier(parent, leaves, nodes, kids, len, m);
    FrontierIsFull(parent, leaves, nodes, kids, m, leaves);
  }

  ghost predicate AllWithin(len: seq<nat>, m: nat) {
    forall i :: 0 <= i < |len| ==> len[i] <= m
  }

  // ---------- The tree is optimal ----------

  /** The bits it takes to send every symbol as often as it weighs. */
  ghost function TotalBits(w: seq<nat>, l: seq<nat>): nat
    requires |w| == |l|
  {
    if l == [] then 0 else
      var n := |l| - 1;
      TotalBits(w[..n], l[..n]) + w[n] * l[n]
  }

  /** Lengths some prefix code has: none beyond m, and Kraft's inequality. */
  ghost predicate PrefixLengths(l: seq<nat>, m: nat) {
    AllWithin(l, m) && Kraft(l, m) <= Pow2(m)
  }

  /** A prefix code that takes no more bits than any other, however long. */
  ghost predicate Optimal(w: seq<nat>, len: seq<nat>, m: nat) {
    && |w| == |len| && PrefixLengths(len, m)
    && (forall l, k :: |l| == |w| && PrefixLengths(l, k) ==> TotalBits(w, len) <= TotalBits(w, l))
  }

  /** The nodes of 1..k that have no parent among them. */
  ghost function Open(parent: seq<int>, k: nat): (r: seq<bool>)
    requires k < |parent|
    ensures |r| == k + 1 && forall v :: 0 <= v <= k ==> r[v] == (v >= 1 && (parent[v] == -1 || parent[v] > k))
  {
    seq(k + 1, v requires 0 <= v <= k => v >= 1 && (parent[v] == -1 || parent[v] > k))
  }

  ghost function Values(w: seq<nat>, k: nat): (r: seq<nat>)
    requires k < |w|
    ensures |r| == k + 1 && forall v :: 0 <= v <= k ==> r[v] == WeightOf(w[v])
  {
    seq(k + 1, v requires 0 <= v <= k => WeightOf(w[v]))
  }

  /** Distances from the root, node 0 not being one. */
  ghost function Depths(parent: seq<int>, nodes: nat, k: nat): (r: seq<nat>)
    requires ParentsAbove(parent, nodes) && k <= nodes
    ensures |r| == k + 1 && forall v :: 1 <= v <= k ==> r[v] == Level(parent, nodes, v)
  {
    seq(k + 1, v requires 0 <= v <= k => if v == 0 then 0 else Level(parent, nodes, v))
  }

  /** Joining a and b into k takes one bit off both and gives k their weight. */
  lemma CostOfJoin(open: seq<bool>, open': seq<bool>, w: seq<nat>, l: seq<nat>, a: nat, b: nat, x: nat)
    requires |open| == |l| == |w| - 1 && |open'| == |l| + 1 && a < |l| && b < |l| && a != b
    requires open[a] && open[b] && open' == open[a := false][b := false] + [true]
    requires l[a] == l[b] == x + 1 && w[|l|] == w[a] + w[b]
    ensures Sum(Costs(open, w, l)) == Sum(Costs(open', w, l + [x])) + w[|l|]
  {
    hide Sum;
    var c, n := Costs(open, w, l), |l|;
    var d := c[a := 0];
    SumUpdate(c, a, 0);
    SumUpdate(d, b, 0);
    var e := d[b := 0];
    var cost: nat := w[n] * x;
    SumSnoc(e, cost);
    assert Costs(open', w, l + [x]) == e + [cost];
    Distribute(w[a], w[b], x);
  }

  lemma ShareOfJoin(open: seq<bool>, open': seq<bool>, l: seq<nat>, m: nat, a: nat, b: nat, x: nat)
    requires |open'| == |l| + 1 && a < |l| && b < |l| && a != b && Fits(open, l, m)
    requires open[a] && open[b] && open' == open[a := false][b := false] + [true]
    requires l[a] == l[b] == x + 1
    ensures Fits(open', l + [x], m)
  {
    hide Sum;
    var s := Shares(open, l, m);
    var d := s[a := 0];
    SumUpdate(s, a, 0);
    SumUpdate(d, b, 0);
    var e := d[b := 0];
    SumSnoc(e, Share(x, m));
    assert Shares(open', l + [x], m) == e + [Share(x, m)];
  }

  lemma OpenStep(parent: seq<int>, leaves: nat, nodes: nat, kids: map<nat, (nat, nat)>, q: nat)
    requires Forest(parent, leaves, nodes, kids) && leaves < q <= nodes && q >= 1
    ensures var (a, b) := kids[q];
            && a < q && b < q && a != b && Open(parent, q - 1)[a] && Open(parent, q - 1)[b]
            && Open(parent, q) == Open(parent, q - 1)[a := false][b := false] + [true]
  {
    assert TwoKids(parent, nodes, q, kids[q]);
  }

  lemma ChosenLightest(parent: seq<int>, w: seq<nat>, leaves: nat, nodes: nat, kids: map<nat, (nat, nat)>, q: nat)
    requires Forest(parent, leaves, nodes, kids) && Greedy(parent, w, leaves, nodes, kids) && leaves < q <= nodes && q >= 1
    ensures TwoLightest(Open(parent, q - 1), Values(w, q), kids[q].0, kids[q].1)
    ensures Values(w, q)[q] == Values(w, q)[kids[q].0] + Values(w, q)[kids[q].1]
  {
    hide WeightOf;
    assert TwoKids(parent, nodes, q, kids[q]);
    assert Joins(parent, w, q, kids[q]);
  }

  lemma CostsPrefix(open: seq<bool>, w: seq<nat>, w': seq<nat>, l: seq<nat>)
    requires |open| == |l| <= |w| <= |w'| && w == w'[..|w|]
    ensures Costs(open, w, l) == Costs(open, w', l)
  {
  }

  lemma DepthOfKids(parent: seq<int>, leaves: nat, nodes: nat, kids: map<nat, (nat, nat)>, q: nat)
    requires Forest(parent, leaves, nodes, kids) && leaves < q <= nodes && q >= 1
    ensures var d := Depths(parent, nodes, q - 1);
            && d + [Level(parent, nodes, q)] == Depths(parent, nodes, q)
            && kids[q].0 < q && kids[q].1 < q && d[kids[q].0] == d[kids[q].1] == 1 + Level(parent, nodes, q)
  {
    assert TwoKids(parent, nodes, q, kids[q]);
  }

  lemma RootOnly(parent: seq<int>, w: seq<nat>, nodes: nat)
    requires ParentsAbove(parent, nodes) && nodes < |w| && 1 <= nodes && Live(parent, nodes) == {nodes}
    ensures Sum(Costs(Open(parent, nodes), Values(w, nodes), Depths(parent, nodes, nodes))) == 0
  {
    hide WeightOf;
    forall v | 1 <= v <= nodes && Open(parent, nodes)[v] ensures v == nodes && Level(parent, nodes, v) == 0 {
      assert v in Live(parent, nodes);
    }
    SumOfZeros(Costs(Open(parent, nodes), Values(w, nodes), Depths(parent, nodes, nodes)));
  }

  /** No prefix code for the nodes open at k costs less than their depths do. */
  lemma {:induction false} OptimalFrom(parent: seq<int>, w: seq<nat>, leaves: nat, nodes: nat, kids: map<nat, (nat, nat)>,
                                       k: nat, l: seq<nat>, m: nat)
    requires Forest(parent, leaves, nodes, kids) && Greedy(parent, w, leaves, nodes, kids)
    requires Live(parent, nodes) == {nodes} && 1 <= leaves <= k <= nodes && Fits(Open(parent, k), l, m)
    ensures |l| == k + 1
    ensures Sum(Costs(Open(parent, k), Values(w, k), Depths(parent, nodes, k))) <= Sum(Costs(Open(parent, k), Values(w, k), l))
    decreases nodes - k
  {
    hide Sum, Costs, Open, Values, Depths, Level, TwoLightest, Joins, TwoKids;
    FitsSize(Open(parent, k), l, m);
    if k == nodes {
      RootOnly(parent, w, nodes);
    } else {
      var q := k + 1;
      var (a, b) := kids[q];
      var v := Values(w, q);
      var d := Depths(parent, nodes, k);
      OpenStep(parent, leaves, nodes, kids, q);
      ChosenLightest(parent, w, leaves, nodes, kids, q);
      DepthOfKids(parent, leaves, nodes, kids, q);
      var r := Siblings(Open(parent, k), v, l, m, a, b);
      ShareOfJoin(Open(parent, k), Open(parent, q), r, m, a, b, r[a] - 1);
      OptimalFrom(parent, w, leaves, nodes, kids, q, r + [r[a] - 1], m);
      CostOfJoin(Open(parent, k), Open(parent, q), v, r, a, b, r[a] - 1);
      CostOfJoin(Open(parent, k), Open(parent, q), v, d, a, b, Level(parent, nodes, q));
      ValuesGrow(w, k);
      CostsPrefix(Open(parent, k), Values(w, k), v, l);
      CostsPrefix(Open(parent, k), Values(w, k), v, d);
    }
  }

  lemma ValuesGrow(w: seq<nat>, k: nat)
    requires k + 1 < |w|
    ensures Values(w, k) == Values(w, k + 1)[..|Values(w, k)|]
  {
  }

  /** Both sums over the symbols alone. */
  lemma {:induction false} SumsOfLeaves(open: seq<bool>, w: seq<nat>, l: seq<nat>, m: nat)
    requires |open| == |l| + 1 == |w| && !open[0] && forall v :: 1 <= v <= |l| ==> open[v]
    ensures Sum(Costs(open, w, [0] + l)) == TotalBits(w[1..], l)
    ensures Sum(Shares(open, [0] + l, m)) == Kraft(l, m)
    decreases |l|
  {
    hide Sum;
    var n := |l|;
    var c, s := Costs(open, w, [0] + l), Shares(open, [0] + l, m);
    if n == 0 {
      SumOfZeros(c);
      SumOfZeros(s);
    } else {
      var l', w', open' := l[..n - 1], w[..n], open[..n];
      SumsOfLeaves(open', w', l', m);
      assert ([0] + l)[..n] == [0] + l' && w[1..][..n - 1] == w'[1..];
      var cost: nat := w[n] * l[n - 1];
      SumSnoc(Costs(open', w', [0] + l'), cost);
      assert c == Costs(open', w', [0] + l') + [cost];
      SumSnoc(Shares(open', [0] + l', m), Share(l[n - 1], m));
      assert s == Shares(open', [0] + l', m) + [Share(l[n - 1], m)];
    }
  }

  /** The weights of the symbols. */
  ghost function LeafValues(w: seq<nat>, leaves: nat): (r: seq<nat>)
    requires leaves < |w|
    ensures |r| == leaves && forall i :: 0 <= i < leaves ==> r[i] == WeightOf(w[i + 1])
  {
    seq(leaves, i requires 0 <= i < leaves => WeightOf(w[i + 1]))
  }

  lemma GreedySize(parent: seq<int>, w: seq<nat>, leaves: nat, nodes: nat, kids: map<nat, (nat, nat)>)
    requires Greedy(parent, w, leaves, nodes, kids) && Forest(parent, leaves, nodes, kids)
    ensures nodes < |parent| && nodes < |w| && ParentsAbove(parent, nodes)
  {
  }

  lemma LeavesAreOpen(parent: seq<int>, leaves: nat, nodes: nat, kids: map<nat, (nat, nat)>)
    requires Forest(parent, leaves, nodes, kids) && leaves <= nodes
    ensures !Open(parent, leaves)[0] && forall v :: 1 <= v <= leaves ==> Open(parent, leaves)[v]
  {
    hide TwoKids;
  }

  lemma TreeBeats(parent: seq<int>, w: seq<nat>, leaves: nat, nodes: nat, kids: map<nat, (nat, nat)>,
                  len: seq<nat>, l: seq<nat>, m: nat)
    requires Forest(parent, leaves, nodes, kids) && Greedy(parent, w, leaves, nodes, kids)
    requires Live(parent, nodes) == {nodes} && 1 <= leaves <= nodes && |l| == |len| == leaves < |w| && PrefixLengths(l, m)
    requires forall i :: 0 <= i < leaves ==> len[i] == Level(parent, nodes, i + 1)
    ensures TotalBits(LeafValues(w, leaves), len) <= TotalBits(LeafValues(w, leaves), l)
  {
    hide Sum, Kraft, TotalBits, Greedy, Forest, Live, WeightOf, Level, Open, Costs, Shares;
    LeavesAreOpen(parent, leaves, nodes, kids);
    GreedySize(parent, w, leaves, nodes, kids);
    var open, v := Open(parent, leaves), Values(w, leaves);
    SumsOfLeaves(open, v, l, m);
    SumsOfLeaves(open, v, len, m);
    assert v[1..] == LeafValues(w, leaves);
    assert Depths(parent, nodes, leaves) == [0] + len;
    OptimalFrom(parent, w, leaves, nodes, kids, leaves, [0] + l, m);
  }

  lemma {:induction false} LevelBound(parent: seq<int>, nodes: nat, v: nat)
    requires ParentsAbove(parent, nodes) && 1 <= v <= nodes
    ensures Level(parent, nodes, v) <= nodes - v
    decreases nodes - v
  {
    if parent[v] != -1 {
      LevelBound(parent, nodes, parent[v]);
    }
  }

  /** No prefix code whatever does better than the lengths of the tree. */
  lemma TreeIsOptimal(parent: seq<int>, w: seq<nat>, leaves: nat, nodes: nat, kids: map<nat, (nat, nat)>,
                      len: seq<nat>, m: nat)
    requires Forest(parent, leaves, nodes, kids) && Greedy(parent, w, leaves, nodes, kids)
    requires Live(parent, nodes) == {nodes} && 1 <= leaves <= nodes && |len| == leaves < |w|
    requires forall i :: 0 <= i < leaves ==> len[i] == Level(parent, nodes, i + 1)
    requires AllWithin(len, m)
    ensures Optimal(LeafValues(w, leaves), len, m)
  {
    hide Kraft, TotalBits, Greedy, TwoKids, Live, LeafValues, Level;
    forall i | 0 <= i < leaves ensures len[i] == Level(parent, nodes, i + 1) <= m {
      assert len[i] <= m;
    }
    CompleteCode(parent, leaves, nodes, kids, len, m);
    forall l, k | |l| == leaves && PrefixLengths(l, k)
      ensures TotalBits(LeafValues(w, leaves), len) <= TotalBits(LeafValues(w, leaves), l)
    {
      TreeBeats(parent, w, leaves, nodes, kids, len, l, k);
    }
  }

  /** In an optimal code a commoner symbol never has the longer code. */
  lemma CommonIsShort(w: seq<nat>, len: seq<nat>, m: nat, i: nat, j: nat)
    requires Optimal(w, len, m) && i < |w| && j < |w| && w[i] > w[j]
    ensures len[i] <= len[j]
  {
    if len[i] > len[j] {
      ExchangeSaves(w, len, m, j, i);
    }
  }

  /** Exchanging lengths that are in the wrong order saves something. */
  lemma ExchangeSaves(w: seq<nat>, len: seq<nat>, m: nat, i: nat, j: nat)
    requires |w| == |len| && PrefixLengths(len, m) && i < |w| && j < |w| && w[i] < w[j] && len[i] < len[j]
    ensures PrefixLengths(Swap(len, i, j), m)
    ensures TotalBits(w, Swap(len, i, j)) < TotalBits(w, len)
  {
    hide Kraft, TotalBits, Sum, Costs, Shares;
    var open, v, l, x, y := [false] + seq(|w|, _ => true), [0] + w, [0] + len, i + 1, j + 1;
    var l' := l[x := l[y]];
    var len' := Swap(len, i, j);
    SumsOfLeaves(open, v, len, m);
    SumsOfLeaves(open, v, len', m);
    assert v[1..] == w;
    assert l'[y := l[x]] == [0] + len';
    Exchange(open, v, l, m, x, y);
    CostAt(open, v, l, x, l[y]);
    CostAt(open, v, l', y, l[x]);
    RearrangeLess(w[i], w[j], len[i], len[j]);
  }

  lemma RearrangeLess(a: nat, b: nat, k: nat, l: nat)
    requires a < b && k < l
    ensures a * l + b * k < a * k + b * l
  {
    Rearrange(a + 1, b, k, l);
    Distribute(a, 1, k);
    Distribute(a, 1, l);
  }

  // ---------- BZ2_hbMakeCodeLengths ----------

  /** Everything the joining loop keeps. */
  ghost predicate Joining(heap: seq<nat>, w: seq<nat>, parent: seq<int>, nHeap: nat,
                          leaves: nat, nodes: nat, top: nat, kids: map<nat, (nat, nat)>, total: nat) {
    && |heap| == MAX_ALPHA_SIZE + 2 && |w| == 2 * MAX_ALPHA_SIZE && |parent| == 2 * MAX_ALPHA_SIZE
    && 1 <= leaves <= MAX_ALPHA_SIZE && leaves <= nodes && 1 <= nHeap && nHeap + nodes == 2 * leaves
    && Forest(parent, leaves, nodes, kids)
    && Heavy(parent, w, nodes, top) && Deepening(parent, w, nodes) && Greedy(parent, w, leaves, nodes, kids)
    && HeapState(heap, nHeap, w, Live(parent, nodes))
    && LiveWeight(parent, w, nodes) == total
  }

  /** Symbol weights as the source packs them: positive, depth zero. */
  ghost predicate LeafWeights(w: seq<nat>, leaves: nat) {
    && leaves < |w|
    && (forall i :: 1 <= i <= leaves ==> WeightOf(w[i]) >= 1 && DepthOf(w[i]) == 0)
  }

  ghost function Total(w: seq<nat>, k: nat): nat
    requires k < |w|
  {
    if k == 0 then 0 else Total(w, k - 1) + WeightOf(w[k])
  }

  ghost function Numbers(n: nat): (s: set<nat>)
    ensures forall v :: v in s <==> 1 <= v <= n
  {
    if n == 0 then {} else Numbers(n - 1) + {n}
  }

  lemma {:induction false} AllLive(parent: seq<int>, w: seq<nat>, k: nat)
    requires k < |w| && k < |parent| && forall v :: 1 <= v <= k ==> parent[v] == -1
    ensures LiveWeight(parent, w, k) == Total(w, k)
  {
    if k > 0 {
      AllLive(parent, w, k - 1);
    }
  }

  lemma SameHeap(h: seq<nat>, n: nat, w: seq<nat>, w': seq<nat>, members: set<nat>)
    requires HeapState(h, n, w, members) && 0 < |w'| == |w| && w'[0] == w[0]
    requires forall v :: v in members ==> v < |w| && w'[v] == w[v]
    ensures HeapState(h, n, w', members)
  {
    forall i | 1 <= i <= n ensures h[i] in members {
      assert h[i] in Members(h, n);
    }
  }

  /** A live node's packed depth stays far below its eight bits. */
  lemma DepthFits(parent: seq<int>, w: seq<nat>, nodes: nat, top: nat, total: nat, v: nat)
    requires Heavy(parent, w, nodes, top) && LiveWeight(parent, w, nodes) == total
    requires total * 256 <= 0x7fffffff && 1 <= v <= nodes && parent[v] == -1
    ensures DepthOf(w[v]) < 33 && WeightOf(w[v]) <= total
  {
    LiveWeightAtLeast(parent, w, nodes, v);
    FibValues();
    DepthBound(DepthOf(w[v]), WeightOf(w[v]), 33);
  }

  /** Put the symbols on the heap one by one. */
  method FillHeap(heap: array<nat>, weight: array<nat>, parent: array<int>, alphaSize: nat)
    returns (nHeap: nat)
    requires heap != weight && heap.Length == MAX_ALPHA_SIZE + 2
    requires weight.Length == parent.Length == 2 * MAX_ALPHA_SIZE
    requires 1 <= alphaSize <= MAX_ALPHA_SIZE && LeafWeights(weight[..], alphaSize) && heap[0] == 0 && weight[0] == 0
    modifies heap, parent
    ensures nHeap == alphaSize && forall v :: 1 <= v <= alphaSize ==> parent[v] == -1
    ensures parent[0] == old(parent[0]) && HeapState(heap[..], nHeap, weight[..], Numbers(alphaSize))
  {
    hide Ordered, DistinctEntries, EntriesFit, WeightOf, DepthOf;
    nHeap := 0;
    ghost var w := weight[..];
    EmptyHeap(heap[..], w);
    for i := 1 to alphaSize + 1
      invariant nHeap == i - 1 && weight[..] == w && parent[0] == old(parent[0])
      invariant forall v :: 1 <= v < i ==> parent[v] == -1
      invariant HeapState(heap[..], nHeap, w, Numbers(i - 1))
    {
      parent[i] := -1;
      nHeap := nHeap + 1;
      ghost var before := heap[..];
      heap[nHeap] := i;
      HeapPrefix(before, heap[..], nHeap - 1, w, Numbers(i - 1));
      PositiveWeight(w[i]);
      UpHeap(heap, weight, nHeap, Numbers(i - 1));
      assert Numbers(i) == Numbers(i - 1) + {i};
    }
  }

  method BuildHeap(heap: array<nat>, weight: array<nat>, parent: array<int>, alphaSize: nat)
    returns (nHeap: nat)
    requires heap != weight && heap.Length == MAX_ALPHA_SIZE + 2
    requires weight.Length == parent.Length == 2 * MAX_ALPHA_SIZE
    requires 1 <= alphaSize <= MAX_ALPHA_SIZE && LeafWeights(weight[..], alphaSize)
    modifies heap, weight, parent
    ensures weight[..] == old(weight[..])[0 := 0]
    ensures Joining(heap[..], weight[..], parent[..], nHeap, alphaSize, alphaSize, 0, map[],
                    Total(weight[..], alphaSize))
  {
    hide Ordered, DistinctEntries, EntriesFit, WeightOf, DepthOf;
    heap[0] := 0;
    weight[0] := 0;
    parent[0] := -2;
    ghost var w := weight[..];
    nHeap := FillHeap(heap, weight, parent, alphaSize);
    AllLive(parent[..], w, alphaSize);
    StartForest(parent[..], w, alphaSize);
    assert Live(parent[..], alphaSize) == Numbers(alphaSize);
  }

  lemma EmptyHeap(h: seq<nat>, w: seq<nat>)
    requires |h| > 0 && |w| > 0 && h[0] == 0 && w[0] == 0
    ensures HeapState(h, 0, w, {})
    ensures Numbers(0) == {}
  {
  }

  lemma PositiveWeight(x: nat)
    requires WeightOf(x) >= 1
    ensures x > 0
  {
  }

  lemma HeapPrefix(h: seq<nat>, k: seq<nat>, n: nat, w: seq<nat>, members: set<nat>)
    requires HeapState(h, n, w, members) && n < |k|
    requires forall i :: 0 <= i <= n ==> k[i] == h[i]
    ensures HeapState(k, n, w, members)
  {
  }

  lemma StartForest(parent: seq<int>, w: seq<nat>, leaves: nat)
    requires leaves < |parent| && forall v :: 1 <= v <= leaves ==> parent[v] == -1
    requires LeafWeights(w, leaves)
    ensures Forest(parent, leaves, leaves, map[])
    ensures Heavy(parent, w, leaves, 0) && Deepening(parent, w, leaves) && Greedy(parent, w, leaves, leaves, map[])
  {
  }

  /** Take the lightest node off the heap. */
  method PopLightest(heap: array<nat>, weight: array<nat>, nHeap: nat, ghost members: set<nat>)
    returns (n: nat, nHeap': nat)
    requires heap != weight && 1 <= nHeap && nHeap + 1 < heap.Length
    requires HeapState(heap[..], nHeap, weight[..], members)
    modifies heap
    ensures n in members && nHeap' == nHeap - 1
    ensures forall v :: v in members ==> v < weight.Length && n < weight.Length && weight[n] <= weight[v]
    ensures HeapState(heap[..], nHeap', weight[..], members - {n})
  {
    hide Ordered, DistinctEntries, Members, Sinking;
    n := heap[1];
    RootFacts(heap[..], nHeap, weight[..], members);
    SinkStart(heap[..], nHeap, weight[..], members);
    heap[1] := heap[nHeap];
    nHeap' := nHeap - 1;
    DownHeap(heap, weight, nHeap', members - {n});
  }

  lemma JoinState(h: seq<nat>, w: seq<nat>, p: seq<int>, nHeap: nat, leaves: nat, nodes: nat, top: nat,
                  kids: map<nat, (nat, nat)>, total: nat, h': seq<nat>, n1: nat, n2: nat)
    requires nHeap > 1 && Joining(h, w, p, nHeap, leaves, nodes, top, kids, total)
    requires Lightest(p, w, nodes, n1, n2) && |h'| == |h|
    requires var k, x := nodes + 1, AddWeights(w[n1], w[n2]);
             HeapState(h', nHeap - 1, w[k := x], Live(p, nodes) - {n1} - {n2} + {k})
    ensures var k, x := nodes + 1, AddWeights(w[n1], w[n2]);
            Joining(h', w[k := x], JoinParent(p, n1, n2, k), nHeap - 1, leaves, k,
                    Max(top, DepthOf(x)), kids[k := (n1, n2)], total)
  {
    hide HeapState, WeightOf, DepthOf, AddWeights, Heavy, Deepening, Greedy, Forest, LiveWeight;
    JoinGreedy(p, w, leaves, nodes, kids, n1, n2);
    JoinForest(p, leaves, nodes, kids, n1, n2);
    JoinHeavy(p, w, nodes, top, n1, n2);
    JoinDeepening(p, w, nodes, n1, n2);
    JoinLiveWeight(p, w, nodes, n1, n2, AddWeights(w[n1], w[n2]));
  }

  lemma ChosenAreLightest(p: seq<int>, w: seq<nat>, leaves: nat, nodes: nat, top: nat,
                          kids: map<nat, (nat, nat)>, total: nat, n1: nat, n2: nat)
    requires Forest(p, leaves, nodes, kids) && Heavy(p, w, nodes, top) && LiveWeight(p, w, nodes) == total
    requires total * 256 <= 0x7fffffff && nodes + 1 < |p| && nodes + 1 < |w|
    requires n1 in Live(p, nodes) && n2 in Live(p, nodes) - {n1}
    requires forall v :: v in Live(p, nodes) ==> w[n1] <= w[v]
    requires forall v :: v in Live(p, nodes) - {n1} ==> w[n2] <= w[v]
    ensures Lightest(p, w, nodes, n1, n2)
  {
    hide WeightOf, DepthOf, Heavy, TwoKids, LiveWeight;
    DepthFits(p, w, nodes, top, total, n1);
    DepthFits(p, w, nodes, top, total, n2);
    forall v | 1 <= v <= nodes && p[v] == -1 && v != n1 ensures w[n2] <= w[v] {
      assert v in Live(p, nodes) - {n1};
    }
  }

  /** One round: join the two lightest live nodes under a new one. */
  method JoinLightest(heap: array<nat>, weight: array<nat>, parent: array<int>, nHeap: nat,
                      ghost leaves: nat, nNodes: nat, ghost top: nat,
                      ghost kids: map<nat, (nat, nat)>, ghost total: nat)
    returns (nHeap': nat, nNodes': nat, ghost top': nat, ghost kids': map<nat, (nat, nat)>)
    requires heap != weight && nHeap > 1 && total * 256 <= 0x7fffffff
    requires Joining(heap[..], weight[..], parent[..], nHeap, leaves, nNodes, top, kids, total)
    modifies heap, weight, parent
    ensures nHeap' == nHeap - 1 && nNodes' == nNodes + 1
    ensures forall v :: 0 <= v <= nNodes < weight.Length ==> weight[v] == old(weight[v])
    ensures Joining(heap[..], weight[..], parent[..], nHeap', leaves, nNodes', top', kids', total)
  {
    hide HeapHolds, Ordered, WeightOf, DepthOf, AddWeights, Heavy, Deepening, Greedy, Forest, LiveWeight;
    ghost var h, w, p := heap[..], weight[..], parent[..];
    ghost var live := Live(p, nNodes);
    var n1, n2;
    n1, nHeap' := PopLightest(heap, weight, nHeap, live);
    n2, nHeap' := PopLightest(heap, weight, nHeap', live - {n1});
    ChosenAreLightest(p, w, leaves, nNodes, top, kids, total, n1, n2);
    nNodes' := nNodes + 1;
    parent[n1] := nNodes';
    parent[n2] := nNodes';
    weight[nNodes'] := AddWeights(weight[n1], weight[n2]);
    parent[nNodes'] := -1;
    assert parent[..] == JoinParent(p, n1, n2, nNodes');
    assert weight[..] == w[nNodes' := AddWeights(w[n1], w[n2])];
    SameHeap(heap[..], nHeap', w, weight[..], live - {n1} - {n2});
    nHeap' := nHeap' + 1;
    ghost var before := heap[..];
    heap[nHeap'] := nNodes';
    HeapPrefix(before, heap[..], nHeap' - 1, weight[..], live - {n1} - {n2});
    PositiveSum(w[n1], w[n2], weight[nNodes']);
    UpHeap(heap, weight, nHeap', live - {n1} - {n2});
    kids' := kids[nNodes' := (n1, n2)];
    top' := Max(top, DepthOf(weight[nNodes']));
    JoinState(h, w, p, nHeap, leaves, nNodes, top, kids, total, heap[..], n1, n2);
  }

  lemma PositiveSum(a: nat, b: nat, x: nat)
    requires DepthOf(a) < 255 && DepthOf(b) < 255 && x == AddWeights(a, b)
    ensures x > 0
  {
  }

  lemma RootFacts(h: seq<nat>, n: nat, w: seq<nat>, members: set<nat>)
    requires HeapState(h, n, w, members) && 1 <= n
    ensures h[1] in members && h[1] < |w|
    ensures forall v :: v in members ==> v < |w| && w[h[1]] <= w[v]
  {
    assert h[1] in Members(h, n);
    forall v | v in members ensures v < |w| && w[h[1]] <= w[v] {
      LightestMember(h, n, w, members, v);
    }
  }


  lemma WithinSnoc(len: seq<nat>, j: nat, m: nat)
    ensures AllWithin(len + [j], m) <==> AllWithin(len, m) && j <= m
  {
    if AllWithin(len + [j], m) {
      forall i | 0 <= i < |len| ensures len[i] <= m {
        assert (len + [j])[i] == len[i];
      }
      assert (len + [j])[|len|] == j;
    }
  }

  ghost function Levels(parent: seq<int>, nodes: nat, n: nat): (s: seq<nat>)
    requires ParentsAbove(parent, nodes) && n <= nodes
    ensures |s| == n && forall i :: 0 <= i < n ==> s[i] == Level(parent, nodes, i + 1)
  {
    seq(n, i requires 0 <= i < n => Level(parent, nodes, i + 1))
  }

  /** The inner loop: follow parent links up to the root. */
  method CountHops(parent: array<int>, i: nat, ghost nodes: nat) returns (j: nat)
    requires ParentsAbove(parent[..], nodes) && 1 <= i <= nodes
    ensures j == Level(parent[..], nodes, i)
  {
    j := 0;
    var k := i;
    while parent[k] >= 0
      invariant 1 <= k <= nodes && Level(parent[..], nodes, i) == j + Level(parent[..], nodes, k)
      decreases nodes - k
    {
      k := parent[k];
      j := j + 1;
    }
  }

  /** The length loop: every symbol gets its distance from the root. */
  method ReadLengths(len: array<nat>, parent: array<int>, alphaSize: nat, maxLen: nat, ghost nodes: nat)
    returns (tooLong: bool)
    requires len.Length >= alphaSize && len as object != parent && alphaSize <= nodes
    requires ParentsAbove(parent[..], nodes)
    modifies len
    ensures len[..alphaSize] == Levels(parent[..], nodes, alphaSize)
    ensures tooLong <==> !AllWithin(len[..alphaSize], maxLen)
    ensures len[alphaSize..] == old(len[alphaSize..])
  {
    tooLong := false;
    ghost var levels, rest := Levels(parent[..], nodes, alphaSize), len[alphaSize..];
    for i := 1 to alphaSize + 1
      invariant parent[..] == old(parent[..]) && len[alphaSize..] == rest
      invariant len[..i - 1] == levels[..i - 1]
      invariant tooLong <==> !AllWithin(levels[..i - 1], maxLen)
    {
      var j := CountHops(parent, i, nodes);
      assert levels[..i] == levels[..i - 1] + [j];
      WithinSnoc(levels[..i - 1], j, maxLen);
      len[i - 1] := j;
      if j > maxLen { tooLong := true; }
    }
    assert levels[..alphaSize] == levels;
  }

  /** Halve every symbol weight, never below one. */
  method Rescale(weight: array<nat>, alphaSize: nat)
    requires LeafWeights(weight[..], alphaSize)
    modifies weight
    ensures LeafWeights(weight[..], alphaSize)
    ensures forall i :: 1 <= i <= alphaSize ==> WeightOf(weight[i]) == 1 + WeightOf(old(weight[i])) / 2
  {
    for i := 1 to alphaSize + 1
      invariant forall q :: 1 <= q < i ==>
        WeightOf(weight[q]) == 1 + WeightOf(old(weight[q])) / 2 && DepthOf(weight[q]) == 0
      invariant forall q :: i <= q <= alphaSize ==> weight[q] == old(weight[q])
    {
      var j := weight[i] / 256;
      j := 1 + j / 2;
      weight[i] := j * 256;
    }
  }

  lemma {:induction false} RescaleShrinks(w: seq<nat>, w': seq<nat>, k: nat)
    requires k < |w| && k < |w'|
    requires forall i :: 1 <= i <= k ==> WeightOf(w[i]) >= 1 && WeightOf(w'[i]) == 1 + WeightOf(w[i]) / 2
    ensures Total(w', k) <= Total(w, k)
    ensures Total(w', k) == Total(w, k) ==> Total(w, k) <= 2 * k
  {
    if k > 0 {
      RescaleShrinks(w, w', k - 1);
    }
  }

  /** With weights of one or two the forest is at most twelve deep. */
  lemma LightIsShallow(parent: seq<int>, w: seq<nat>, nodes: nat, top: nat, total: nat, leaves: nat, v: nat)
    requires Heavy(parent, w, nodes, top) && Deepening(parent, w, nodes) && ParentsAbove(parent, nodes)
    requires LiveWeight(parent, w, nodes) == total <= 2 * leaves && leaves <= MAX_ALPHA_SIZE
    requires Live(parent, nodes) == {nodes} && 1 <= v <= nodes
    ensures Level(parent, nodes, v) <= 12
  {
    hide WeightOf, DepthOf, Fib;
    assert nodes in Live(parent, nodes);
    LiveWeightAtLeast(parent, w, nodes, nodes);
    FibValues();
    DepthBound(DepthOf(w[nodes]), WeightOf(w[nodes]), 13);
    LevelToRoot(parent, w, nodes, v);
  }

  lemma {:induction false} LevelToRoot(parent: seq<int>, w: seq<nat>, nodes: nat, v: nat)
    requires ParentsAbove(parent, nodes) && Deepening(parent, w, nodes)
    requires Live(parent, nodes) == {nodes} && 1 <= v <= nodes
    ensures Level(parent, nodes, v) + DepthOf(w[v]) <= DepthOf(w[nodes])
    decreases nodes - v
  {
    if parent[v] == -1 {
      assert v in Live(parent, nodes);
    } else {
      var p: nat := parent[v];
      LevelToRoot(parent, w, nodes, p);
    }
  }

  lemma OneRoot(h: seq<nat>, w: seq<nat>, p: seq<int>, leaves: nat, nodes: nat, top: nat,
                kids: map<nat, (nat, nat)>, total: nat)
    requires Joining(h, w, p, 1, leaves, nodes, top, kids, total)
    ensures Live(p, nodes) == {nodes}
  {
    assert Members(h, 1) == {h[1]};
    assert h[1] in Live(p, nodes);
    assert nodes in Live(p, nodes) by {
      if p[nodes] != -1 {
        assert false;
      }
    }
  }

  lemma TotalOfLeaves(w: seq<nat>, w': seq<nat>, k: nat)
    requires k < |w| && k < |w'| && forall i :: 1 <= i <= k ==> w'[i] == w[i]
    ensures Total(w', k) == Total(w, k)
  {
    if k > 0 {
      TotalOfLeaves(w, w', k - 1);
    }
  }

  /** Frequencies as weights: a symbol that never occurs counts as one. */
  function Clamped(freq: seq<nat>): nat {
    if |freq| == 0 then 0
    else Clamped(freq[..|freq| - 1]) + Max(1, freq[|freq| - 1])
  }

  /** The joining loop: one live node is left, and it is the last one made. */
  method JoinAll(heap: array<nat>, weight: array<nat>, parent: array<int>, alphaSize: nat)
    returns (nNodes: nat, ghost top: nat, ghost kids: map<nat, (nat, nat)>)
    requires heap != weight && heap.Length == MAX_ALPHA_SIZE + 2
    requires weight.Length == parent.Length == 2 * MAX_ALPHA_SIZE
    requires 1 <= alphaSize <= MAX_ALPHA_SIZE && LeafWeights(weight[..], alphaSize)
    requires Total(weight[..], alphaSize) * 256 <= 0x7fffffff
    modifies heap, weight, parent
    ensures forall v :: 1 <= v <= alphaSize ==> weight[v] == old(weight[v])
    ensures Joining(heap[..], weight[..], parent[..], 1, alphaSize, nNodes, top, kids,
                    old(Total(weight[..], alphaSize)))
  {
    hide Heavy, Deepening, Greedy, Forest, HeapState, LiveWeight;
    ghost var leaves, total := weight[..], Total(weight[..], alphaSize);
    nNodes, top, kids := alphaSize, 0, map[];
    var nHeap := BuildHeap(heap, weight, parent, alphaSize);
    TotalOfLeaves(leaves, weight[..], alphaSize);
    while nHeap > 1
      invariant Joining(heap[..], weight[..], parent[..], nHeap, alphaSize, nNodes, top, kids, total)
      invariant forall v :: 1 <= v <= alphaSize ==> weight[v] == leaves[v]
    {
      nHeap, nNodes, top, kids := JoinLightest(heap, weight, parent, nHeap, alphaSize, nNodes, top, kids, total);
    }
  }

  /** Some best code for these weights goes beyond the limit. */
  ghost predicate TooDeep(w: seq<nat>, maxLen: nat) {
    exists l, m :: Optimal(w, l, m) && !AllWithin(l, maxLen)
  }

  /** The weights after r rescalings: at first the frequencies, a symbol that
      never occurs counting as one; then one more than half of the last ones. */
  ghost function Scaled(freq: seq<nat>, r: nat): (w: seq<nat>)
    ensures |w| == |freq|
  {
    if r == 0 then seq(|freq|, i requires 0 <= i < |freq| => Max(1, freq[i]))
    else
      var w := Scaled(freq, r - 1);
      seq(|freq|, i requires 0 <= i < |freq| => 1 + w[i] / 2)
  }

  /** A best code for the frequencies, or, as long as every best code found goes
      beyond the limit, for the weights after another rescaling. */
  ghost predicate BestWithin(freq: seq<nat>, len: seq<nat>, maxLen: nat) {
    exists r: nat :: Optimal(Scaled(freq, r), len, maxLen) && forall q: nat :: q < r ==> TooDeep(Scaled(freq, q), maxLen)
  }

  /** One round: a tree over all symbols, and the depths of its leaves. */
  method OneRound(heap: array<nat>, weight: array<nat>, parent: array<int>, len: array<nat>, alphaSize: nat, maxLen: nat)
    returns (tooLong: bool)
    requires heap != weight && heap != len && weight != len && parent as object !in {heap, weight, len}
    requires heap.Length == MAX_ALPHA_SIZE + 2 && weight.Length == parent.Length == 2 * MAX_ALPHA_SIZE
    requires 1 <= alphaSize <= MAX_ALPHA_SIZE && alphaSize <= len.Length && 12 <= maxLen
    requires LeafWeights(weight[..], alphaSize) && Total(weight[..], alphaSize) * 256 <= 0x7fffffff
    modifies heap, weight, parent, len
    ensures forall v :: 1 <= v <= alphaSize ==> weight[v] == old(weight[v])
    ensures tooLong ==> old(Total(weight[..], alphaSize)) > 2 * alphaSize
    ensures !tooLong ==> Kraft(len[..alphaSize], maxLen) == Pow2(maxLen)
    ensures !tooLong ==> forall i :: 0 <= i < alphaSize ==> len[i] <= maxLen && (alphaSize > 1 ==> len[i] >= 1)
    ensures !tooLong ==> Optimal(LeafValues(old(weight[..]), alphaSize), len[..alphaSize], maxLen)
    ensures tooLong ==> TooDeep(LeafValues(old(weight[..]), alphaSize), maxLen)
    ensures len[alphaSize..] == old(len[alphaSize..])
  {
    hide Joining, Live, Kraft, Pow2, Levels, Total, LeafWeights, Optimal;
    ghost var total := Total(weight[..], alphaSize);
    ghost var top, kids;
    var nNodes;
    nNodes, top, kids := JoinAll(heap, weight, parent, alphaSize);
    JoiningFacts(heap[..], weight[..], parent[..], 1, alphaSize, nNodes, top, kids, total);
    tooLong := ReadLengths(len, parent, alphaSize, maxLen, nNodes);
    Outcome(heap[..], weight[..], parent[..], alphaSize, nNodes, top, kids, total, len[..alphaSize], maxLen);
    assert forall i :: 0 <= i < alphaSize ==> len[i] == len[..alphaSize][i];
    assert LeafValues(weight[..], alphaSize) == LeafValues(old(weight[..]), alphaSize);
  }

  method FirstWeights(weight: array<nat>, freq: seq<nat>, alphaSize: nat)
    requires 1 <= alphaSize <= MAX_ALPHA_SIZE && alphaSize <= |freq| && weight.Length == MAX_ALPHA_SIZE * 2
    modifies weight
    ensures LeafWeights(weight[..], alphaSize) && Total(weight[..], alphaSize) == Clamped(freq[..alphaSize])
    ensures LeafValues(weight[..], alphaSize) == Scaled(freq[..alphaSize], 0)
  {
    for i := 0 to alphaSize
      invariant forall q :: 1 <= q <= i ==> weight[q] == 256 * Max(1, freq[q - 1])
    {
      weight[i + 1] := (if freq[i] == 0 then 1 else freq[i]) * 256;
    }
    ClampedIsTotal(freq, weight[..], alphaSize);
  }

  lemma NextScaled(w: seq<nat>, w': seq<nat>, freq: seq<nat>, r: nat)
    requires |freq| < |w| == |w'| && LeafValues(w, |freq|) == Scaled(freq, r)
    requires forall i :: 1 <= i <= |freq| ==> WeightOf(w'[i]) == 1 + WeightOf(w[i]) / 2
    ensures LeafValues(w', |freq|) == Scaled(freq, r + 1)
  {
  }

  /** BZ2_hbMakeCodeLengths. The packed weights fit 31 bits; then for any limit
      of twelve or more the loop ends with a complete code within the limit. It
      is a best code for the weights of its round, and every round before found
      a best code that goes beyond the limit. */
  method MakeCodeLengths(len: array<nat>, freq: seq<nat>, alphaSize: nat, maxLen: nat)
    requires 1 <= alphaSize <= MAX_ALPHA_SIZE && alphaSize <= |freq| && alphaSize <= len.Length
    requires 12 <= maxLen && Clamped(freq[..alphaSize]) * 256 <= 0x7fffffff
    modifies len
    ensures Kraft(len[..alphaSize], maxLen) == Pow2(maxLen)
    ensures forall i :: 0 <= i < alphaSize ==> len[i] <= maxLen && (alphaSize > 1 ==> len[i] >= 1)
    ensures BestWithin(freq[..alphaSize], len[..alphaSize], maxLen)
    ensures len[alphaSize..] == old(len[alphaSize..])
  {
    hide Joining, Live, Kraft, Pow2, Levels, Optimal, TooDeep, Scaled, LeafValues, Total, WeightOf, DepthOf;
    var heap := new nat[MAX_ALPHA_SIZE + 2];
    var weight := new nat[MAX_ALPHA_SIZE * 2];
    var parent := new int[MAX_ALPHA_SIZE * 2];
    FirstWeights(weight, freq, alphaSize);
    ghost var rounds := 0;
    while true
      invariant LeafWeights(weight[..], alphaSize) && len[alphaSize..] == old(len[alphaSize..])
      invariant Total(weight[..], alphaSize) * 256 <= 0x7fffffff
      invariant LeafValues(weight[..], alphaSize) == Scaled(freq[..alphaSize], rounds)
      invariant forall r :: 0 <= r < rounds ==> TooDeep(Scaled(freq[..alphaSize], r), maxLen)
      decreases Total(weight[..], alphaSize)
    {
      ghost var leaves := weight[..];
      var tooLong := OneRound(heap, weight, parent, len, alphaSize, maxLen);
      if !tooLong { break; }
      ghost var before := weight[..];
      TotalOfLeaves(leaves, before, alphaSize);
      Rescale(weight, alphaSize);
      RescaleShrinks(before, weight[..], alphaSize);
      rounds := rounds + 1;
      NextScaled(leaves, weight[..], freq[..alphaSize], rounds - 1);
    }
  }

  lemma {:induction false} ClampedIsTotal(freq: seq<nat>, w: seq<nat>, k: nat)
    requires k <= |freq| && k < |w|
    requires forall q :: 1 <= q <= k ==> w[q] == 256 * Max(1, freq[q - 1])
    ensures Clamped(freq[..k]) == Total(w, k)
  {
    if k > 0 {
      assert freq[..k][..k - 1] == freq[..k - 1];
      ClampedIsTotal(freq, w, k - 1);
    }
  }

  lemma JoiningFacts(h: seq<nat>, w: seq<nat>, p: seq<int>, nHeap: nat, leaves: nat, nodes: nat, top: nat,
                     kids: map<nat, (nat, nat)>, total: nat)
    requires Joining(h, w, p, nHeap, leaves, nodes, top, kids, total)
    ensures 1 <= nHeap && leaves <= nodes < 2 * MAX_ALPHA_SIZE && nHeap + nodes == 2 * leaves
    ensures ParentsAbove(p, nodes)
  {
  }

  /** Either the lengths form a complete code within the limit, or some
      weight was large enough for the rescaling to shrink the total. */
  lemma Outcome(h: seq<nat>, w: seq<nat>, p: seq<int>, leaves: nat, nodes: nat, top: nat,
                kids: map<nat, (nat, nat)>, total: nat, len: seq<nat>, maxLen: nat)
    requires Joining(h, w, p, 1, leaves, nodes, top, kids, total)
    requires 12 <= maxLen && leaves <= nodes && ParentsAbove(p, nodes)
    requires len == Levels(p, nodes, leaves)
    ensures AllWithin(len, maxLen) ==> Kraft(len, maxLen) == Pow2(maxLen)
    ensures leaves > 1 ==> forall i :: 0 <= i < leaves ==> len[i] >= 1
    ensures !AllWithin(len, maxLen) ==> total > 2 * leaves
    ensures Optimal(LeafValues(w, leaves), len, if AllWithin(len, maxLen) then maxLen else nodes)
  {
    hide HeapState, Heavy, Deepening, Greedy, LiveWeight, Optimal;
    OneRoot(h, w, p, leaves, nodes, top, kids, total);
    forall i | 0 <= i < leaves ensures len[i] == Level(p, nodes, i + 1) <= nodes {
      assert len[i] == Levels(p, nodes, leaves)[i];
      LevelBound(p, nodes, i + 1);
    }
    TreeIsOptimal(p, w, leaves, nodes, kids, len, if AllWithin(len, maxLen) then maxLen else nodes);
    if AllWithin(len, maxLen) {
      forall i | 0 <= i < leaves ensures len[i] == Level(p, nodes, i + 1) <= maxLen {
        assert len[i] == Levels(p, nodes, leaves)[i];
      }
      CompleteCode(p, leaves, nodes, kids, len, maxLen);
    } else if total <= 2 * leaves {
      forall i | 0 <= i < leaves ensures len[i] <= maxLen {
        LightIsShallow(p, w, nodes, top, total, leaves, i + 1);
      }
    }
    forall i | leaves > 1 && 0 <= i < leaves ensures len[i] >= 1 {
      assert i + 1 !in Live(p, nodes);
    }
  }
}
