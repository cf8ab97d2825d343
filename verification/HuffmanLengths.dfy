/** BZ2_hbMakeCodeLengths: code lengths for a table of frequencies, none longer than maxLen. */
module HuffmanLengths {
  import opened HuffmanHeap
  import opened HuffmanTree
  import opened HuffmanOptimal
  import opened Bits

  /** Weights below this fit a 32-bit cell beside an 8-bit depth. */
  const WEIGHT_LIMIT := 8388608

  /** Cells are signed 32-bit integers. */
  const INT_LIMIT := 2147483648

  lemma DepthSmall(d: nat)
    requires Fib(d) < WEIGHT_LIMIT
    ensures d <= 32
  {
    assert Fib(8) == 55 && Fib(9) == 89;
    assert Fib(16) == 2584 && Fib(17) == 4181;
    assert Fib(24) == 121393 && Fib(25) == 196418;
    assert Fib(32) == 5702887 && Fib(33) == 9227465;
    if d > 32 { FibMono(33, d); }
  }

  /** The cells hold weight and depth together; the weight in the upper 24 bits. */
  ghost predicate Packed(weight: seq<int>, f: Forest) {
    && |f.wt| == |f.dp| <= |weight| && |weight| > 0 && weight[0] == 0
    && forall v {:trigger weight[v]} :: 1 <= v <= f.n() ==>
         weight[v] == 256 * f.wt[v] + f.dp[v] && 0 <= f.dp[v] < 256 && f.wt[v] >= 1 && weight[v] < INT_LIMIT
  }

  /** ADDWEIGHTS: the low bytes of the summed weights are clear and the depth fits them, so or-ing
      the depth in adds it. */
  method AddWeights(w1: int, w2: int, ghost a1: int, ghost d1: int, ghost a2: int, ghost d2: int) returns (r: int)
    requires w1 == 256 * a1 + d1 && w2 == 256 * a2 + d2 && 0 <= d1 < 255 && 0 <= d2 < 255
    ensures r == 256 * (a1 + a2) + 1 + if d1 > d2 then d1 else d2
  {
    var e1, e2 := w1 % 256, w2 % 256;
    assert e1 == d1 && e2 == d2;
    r := (w1 - e1) + (w2 - e2) + (1 + if e1 > e2 then e1 else e2);
  }

  /** What the two pops return may be joined. */
  lemma PoppedLightest(f: Forest, a: nat, weight: seq<int>, h1: seq<int>, h2: seq<int>, x: int, y: int)
    requires Grown(f, a) && Packed(weight, f) && x in f.live && y in f.live && x != y
    requires Bag(h1, f.live - {x}) && Bag(h2, f.live - {x} - {y}) && IsHeap(h1, weight) && IsHeap(h2, weight)
    requires forall k {:trigger h1[k]} :: 1 <= k < |h1| ==> weight[x] <= weight[h1[k]]
    requires forall k {:trigger h2[k]} :: 1 <= k < |h2| ==> weight[y] <= weight[h2[k]]
    ensures Lightest(f, x, y)
  {
    assert 1 <= x <= f.n() && 1 <= y <= f.n();
    var j := BagAt(h1, f.live - {x}, y);
    assert weight[x] <= weight[y];
    forall v {:trigger v in f.live} | v in f.live ensures 1 <= v <= f.n() && (v == x || f.wt[y] <= f.wt[v]) {
      if v != x && v != y {
        var k := BagAt(h2, f.live - {x} - {y}, v);
        assert weight[y] <= weight[v];
      }
    }
  }

  lemma HeapElsewhere(h: seq<int>, w: seq<int>, w': seq<int>, t: int)
    requires IsHeap(h, w) && 0 < t < |w| && |w'| == |w|
      && (forall v {:trigger w'[v]} :: 0 <= v < |w| && v != t ==> w'[v] == w[v])
    requires forall k {:trigger h[k]} :: 0 <= k < |h| ==> h[k] != t
    ensures IsHeap(h, w')
  {
    forall k {:trigger Ord(h, w', k)} | 2 <= k < |h| ensures Ord(h, w', k) { assert Ord(h, w, k); }
  }

  // ---- building the tree ----

  /** The arrays hold the forest f, whose roots are in the heap. */
  ghost predicate Building(f: Forest, a: nat, total: int, h: seq<int>, weight: seq<int>, parent: seq<int>) {
    && 2 <= a <= MAX_ALPHA && |weight| == |parent| == 2 * MAX_ALPHA
    && Grown(f, a) && Weighed(f) && LiveSum(f.wt, f.live, f.n()) == total < WEIGHT_LIMIT
    && |h| - 1 + f.n() == 2 * a && |h| >= 2 && Packed(weight, f) && IsHeap(h, weight) && Bag(h, f.live)
    && (forall v {:trigger parent[v]} :: 1 <= v <= f.n() ==> parent[v] == f.par[v]) && parent[0] == -2
    && (f.n() > a ==> f.n() in f.live)
  }

  /** A tree's depth leaves room for one more in its byte. */
  lemma LiveSmall(f: Forest, a: nat, total: int, x: int)
    requires Grown(f, a) && Weighed(f) && LiveSum(f.wt, f.live, f.n()) == total < WEIGHT_LIMIT && x in f.live
    ensures 0 <= f.dp[x] <= 32 && f.wt[x] <= total
  {
    forall v {:trigger f.wt[v]} | 1 <= v < |f.wt| ensures f.wt[v] >= 0 { assert f.wt[v] >= Fib(f.dp[v]); }
    LiveSumHolds(f.wt, f.live, x, f.n());
    assert f.wt[x] >= Fib(f.dp[x]);
    DepthSmall(f.dp[x]);
  }

  lemma Joined(f: Forest, a: nat, total: int, x: int, y: int, w: seq<int>, w': seq<int>, p: seq<int>, p': seq<int>)
    requires Grown(f, a) && Weighed(f) && LiveSum(f.wt, f.live, f.n()) == total < WEIGHT_LIMIT && Lightest(f, x, y)
      && Packed(w, f)
    requires f.n() + 1 < |w| == |p| && p[0] == -2 && forall v {:trigger p[v]} :: 1 <= v <= f.n() ==> p[v] == f.par[v]
    requires w' == w[f.n() + 1 := 256 * (f.wt[x] + f.wt[y]) + 1 + if f.dp[x] > f.dp[y] then f.dp[x] else f.dp[y]]
    requires p' == p[x := f.n() + 1][y := f.n() + 1][f.n() + 1 := -1]
    ensures var g := Join(f, x, y);
      && Grown(g, a) && Weighed(g) && LiveSum(g.wt, g.live, g.n()) == total && Packed(w', g) && p'[0] == -2
      && g.n() in g.live
      && forall v {:trigger p'[v]} :: 1 <= v <= g.n() ==> p'[v] == g.par[v]
    ensures w'[f.n() + 1] > 0
  {
    JoinGrown(f, a, x, y);
    JoinWeighed(f, a, x, y);
    JoinSum(f, a, x, y);
    LiveSmall(f, a, total, x);
    LiveSmall(f, a, total, y);
    var g := Join(f, x, y);
    LiveSmall(g, a, total, g.n());
    JoinedPacked(f, x, y, w, w', total);
    JoinedParents(f, x, y, p, p');
  }

  lemma JoinedParents(f: Forest, x: int, y: int, p: seq<int>, p': seq<int>)
    requires |f.wt| == |f.dp| == |f.par| && 1 <= x <= f.n() && 1 <= y <= f.n()
    requires f.n() + 1 < |p| && p[0] == -2 && forall v {:trigger p[v]} :: 1 <= v <= f.n() ==> p[v] == f.par[v]
    requires p' == p[x := f.n() + 1][y := f.n() + 1][f.n() + 1 := -1]
    ensures p'[0] == -2 && forall v {:trigger p'[v]} :: 1 <= v <= f.n() + 1 ==> p'[v] == Join(f, x, y).par[v]
  {
    forall v {:trigger p'[v]} | 1 <= v <= f.n() + 1 ensures p'[v] == Join(f, x, y).par[v] {
      if v <= f.n() { assert p[v] == f.par[v]; }
    }
  }

  /** The new root fits its packed weight. */
  lemma JoinedPacked(f: Forest, x: int, y: int, w: seq<int>, w': seq<int>, total: int)
    requires |f.wt| == |f.dp| == |f.par| && 1 <= x <= f.n() && 1 <= y <= f.n() && Packed(w, f) && f.n() + 1 < |w|
    requires w' == w[f.n() + 1 := 256 * (f.wt[x] + f.wt[y]) + 1 + if f.dp[x] > f.dp[y] then f.dp[x] else f.dp[y]]
    requires 0 <= f.dp[x] <= 32 && 0 <= f.dp[y] <= 32 && f.wt[x] + f.wt[y] <= total < WEIGHT_LIMIT
    ensures Packed(w', Join(f, x, y)) && w'[f.n() + 1] > 0
  {
    var g, t := Join(f, x, y), f.n() + 1;
    assert w[x] == 256 * f.wt[x] + f.dp[x] && w[y] == 256 * f.wt[y] + f.dp[y];
    forall v {:trigger g.dp[v]} {:trigger g.wt[v]} {:trigger w'[v]} | 1 <= v <= g.n()
      ensures w'[v] == 256 * g.wt[v] + g.dp[v] && 0 <= g.dp[v] < 256 && g.wt[v] >= 1 && w'[v] < INT_LIMIT
    {
      if v < t {
        assert w[v] == 256 * f.wt[v] + f.dp[v] && w'[v] == w[v] && g.wt[v] == f.wt[v] && g.dp[v] == f.dp[v];
      } else {
        assert g.wt[v] == f.wt[x] + f.wt[y];
      }
    }
  }

  /** Takes the two lightest roots out of the heap. */
  method PopTwo(heap: array<int>, weight: array<int>, nHeap: nat, ghost f: Forest, ghost a: nat)
      returns (n1: int, n2: int)
    requires heap != weight && 2 <= nHeap < heap.Length && Grown(f, a) && Packed(weight[..], f)
    requires IsHeap(heap[..nHeap + 1], weight[..]) && Bag(heap[..nHeap + 1], f.live)
    modifies heap
    ensures Lightest(f, n1, n2) && IsHeap(heap[..nHeap - 1], weight[..]) && Bag(heap[..nHeap - 1], f.live - {n1} - {n2})
  {
    n1 := Pop(heap, weight, nHeap, f.live);
    ghost var h1 := heap[..nHeap];
    n2 := Pop(heap, weight, nHeap - 1, f.live - {n1});
    PoppedLightest(f, a, weight[..], h1, heap[..nHeap - 1], n1, n2);
  }

  ghost predicate Extends(f: Forest, g: Forest) {
    && |f.wt| == |f.dp| <= |g.wt| == |g.dp|
    && forall v {:trigger g.wt[v]} {:trigger g.dp[v]} :: 0 <= v < |f.wt| ==> g.wt[v] == f.wt[v] && g.dp[v] == f.dp[v]
  }

  lemma JoinExtends(f: Forest, x: int, y: int)
    requires |f.wt| == |f.dp| == |f.par| && 1 <= x <= f.n() && 1 <= y <= f.n()
    ensures Extends(f, Join(f, x, y))
  {
  }

  /** Makes node t the parent of n1 and n2. */
  method Link(weight: array<int>, parent: array<int>, n1: int, n2: int, t: int, ghost f: Forest, ghost a: nat,
      ghost total: int)
    requires weight != parent && t == f.n() + 1 < weight.Length == parent.Length && Lightest(f, n1, n2)
      && Packed(weight[..], f)
    requires Grown(f, a) && Weighed(f) && LiveSum(f.wt, f.live, f.n()) == total < WEIGHT_LIMIT
    requires parent[0] == -2 && forall v {:trigger parent[..][v]} :: 1 <= v <= f.n() ==> parent[..][v] == f.par[v]
    modifies weight, parent
    ensures var g := Join(f, n1, n2);
      && Grown(g, a) && Weighed(g) && LiveSum(g.wt, g.live, g.n()) == total && Packed(weight[..], g) && g.n() in g.live
      && parent[..][0] == -2 && forall v {:trigger parent[..][v]} :: 1 <= v <= g.n() ==> parent[..][v] == g.par[v]
    ensures weight[t] > 0 && Extends(f, Join(f, n1, n2))
    ensures forall v {:trigger weight[..][v]} ::
      0 <= v < weight.Length && v != t ==> weight[..][v] == old(weight[..])[v]
  {
    ghost var w, p := weight[..], parent[..];
    LiveSmall(f, a, total, n1);
    LiveSmall(f, a, total, n2);
    parent[n1] := t;
    parent[n2] := t;
    assert weight[n1] == w[n1] && weight[n2] == w[n2];
    weight[t] := AddWeights(weight[n1], weight[n2], f.wt[n1], f.dp[n1], f.wt[n2], f.dp[n2]);
    parent[t] := -1;
    Joined(f, a, total, n1, n2, w, weight[..], p, parent[..]);
    JoinExtends(f, n1, n2);
  }

  /** One turn: the two lightest roots get a common parent. */
  method JoinTwo(heap: array<int>, weight: array<int>, parent: array<int>, nHeap: nat, nNodes: nat, ghost f: Forest,
      ghost a: nat, ghost total: int)
      returns (ghost g: Forest)
    requires heap != weight && heap != parent && weight != parent && 2 <= nHeap < heap.Length && nNodes == f.n()
    requires Building(f, a, total, heap[..nHeap + 1], weight[..], parent[..])
    modifies heap, weight, parent
    ensures Building(g, a, total, heap[..nHeap], weight[..], parent[..]) && g.n() == nNodes + 1
    ensures Extends(f, g) && (Greedy(f, a) ==> Greedy(g, a))
  {
    var n1, n2 := PopTwo(heap, weight, nHeap, f, a);
    g := Join(f, n1, n2);
    if Greedy(f, a) { JoinGreedy(f, a, n1, n2); }
    ghost var w := weight[..];
    Link(weight, parent, n1, n2, nNodes + 1, f, a, total);
    PushJoined(heap, weight, nHeap, nNodes + 1, f.live - {n1} - {n2}, g.live, w);
  }

  /** The new node t goes back in the heap. */
  method PushJoined(heap: array<int>, weight: array<int>, nHeap: nat, t: nat, ghost rest: set<int>,
      ghost live: set<int>, ghost w: seq<int>)
    requires heap != weight && 2 <= nHeap < heap.Length && 0 < t < weight.Length == |w| && weight[t] > 0 && t !in rest
      && live == rest + {t}
    requires IsHeap(heap[..nHeap - 1], w) && Bag(heap[..nHeap - 1], rest)
    requires forall v {:trigger weight[..][v]} :: 0 <= v < weight.Length && v != t ==> weight[..][v] == w[v]
    modifies heap
    ensures IsHeap(heap[..nHeap], weight[..]) && Bag(heap[..nHeap], live)
  {
    BagFresh(heap[..nHeap - 1], rest, t);
    HeapElsewhere(heap[..nHeap - 1], w, weight[..], t);
    Push(heap, weight, nHeap - 2, t, rest);
  }

  ghost function Upto(k: nat): (r: set<int>)
    ensures forall v :: v in r <==> 1 <= v <= k
  {
    if k == 0 then {} else Upto(k - 1) + {k}
  }

  /** The leaves alone. */
  ghost function Leaves(wt: seq<int>): Forest
    requires |wt| > 0
  {
    var z: seq<int> := seq(|wt|, _ => 0);
    Forest(wt, z, seq(|wt|, v => if v == 0 then -2 else -1), z, z, Upto(|wt| - 1), 0)
  }

  function WeightSum(wt: seq<int>, k: nat): int
    requires k < |wt|
  {
    if k == 0 then 0 else WeightSum(wt, k - 1) + wt[k]
  }

  lemma {:induction false} LeavesSum(wt: seq<int>, k: nat)
    requires k < |wt|
    ensures LiveSum(wt, Leaves(wt).live, k) == WeightSum(wt, k)
  {
    if k > 0 { LeavesSum(wt, k - 1); }
  }

  /** Cells 1..a hold the leaves' weights. */
  ghost predicate LeafCells(weight: seq<int>, wt: seq<int>) {
    && |wt| <= |weight| && forall v {:trigger weight[v]} :: 1 <= v < |wt| ==> weight[v] == 256 * wt[v] && wt[v] >= 1
  }

  /** The heap holds the first k leaves; kept closed where it is only passed on. */
  ghost predicate Planted(h: seq<int>, w: seq<int>, k: nat) {
    forall u {:trigger Open(h, u)} :: Open(h, u) ==> IsHeap(h, w) && Bag(h, Upto(k))
  }

  lemma PlantedOpens(h: seq<int>, w: seq<int>, k: nat)
    ensures Planted(h, w, k) <==> IsHeap(h, w) && Bag(h, Upto(k))
  {
    assert Open(h, 0);
  }

  lemma NonePlanted(h: seq<int>, w: seq<int>)
    requires h == [0] && |w| > 0 && w[0] == 0
    ensures Planted(h, w, 0)
  {
    BagEmpty(h, Upto(0));
  }

  /** Puts all leaves in the heap. */
  method PlantLeaves(heap: array<int>, weight: array<int>, parent: array<int>, a: nat, ghost wt: seq<int>)
    requires heap != weight && heap != parent && weight != parent && heap.Length == MAX_ALPHA + 2
    requires weight.Length == parent.Length == 2 * MAX_ALPHA && 2 <= a <= MAX_ALPHA && |wt| == a + 1
    requires LeafCells(weight[..], wt) && WeightSum(wt, a) < WEIGHT_LIMIT
    modifies heap, weight, parent
    ensures Building(Leaves(wt), a, WeightSum(wt, a), heap[..a + 1], weight[..], parent[..])
  {
    ghost var was := weight[..];
    heap[0] := 0;
    weight[0] := 0;
    parent[0] := -2;
    PlantAll(heap, weight, parent, a, was, wt);
    PlantedOpens(heap[..a + 1], weight[..], a);
    LeavesSum(wt, a);
    LeavesBuilt(wt, a, weight[..], was);
  }

  method PlantAll(heap: array<int>, weight: array<int>, parent: array<int>, a: nat, ghost was: seq<int>,
      ghost wt: seq<int>)
    requires heap != weight && heap != parent && weight != parent && a + 1 < heap.Length && |was| == weight.Length
    requires a < weight.Length && a < parent.Length && |wt| == a + 1 && LeafCells(was, wt)
    requires heap[0] == 0 && weight[0] == 0 && parent[0] == -2
    requires forall v {:trigger weight[v]} :: 1 <= v < weight.Length ==> weight[v] == was[v]
    modifies heap, parent
    ensures Planted(heap[..a + 1], weight[..], a)
    ensures parent[0] == -2 && forall v {:trigger parent[v]} :: 1 <= v <= a ==> parent[v] == -1
  {
    assert heap[..1] == [0];
    NonePlanted(heap[..1], weight[..]);
    for i := 0 to a
      invariant Planted(heap[..i + 1], weight[..], i)
      invariant parent[0] == -2 && forall v {:trigger parent[v]} :: 1 <= v <= i ==> parent[v] == -1
    {
      parent[i + 1] := -1;
      PlantOne(heap, weight, i, was, wt);
    }
  }

  method PlantOne(heap: array<int>, weight: array<int>, i: nat, ghost was: seq<int>, ghost wt: seq<int>)
    requires heap != weight && i + 2 < heap.Length && |was| == weight.Length && i + 1 < |wt| && LeafCells(was, wt)
      && i + 1 < weight.Length
    requires forall v {:trigger weight[v]} :: 1 <= v < weight.Length ==> weight[v] == was[v]
    requires Planted(heap[..i + 1], weight[..], i)
    modifies heap
    ensures Planted(heap[..i + 2], weight[..], i + 1)
  {
    PlantedOpens(heap[..i + 1], weight[..], i);
    assert weight[i + 1] == was[i + 1] == 256 * wt[i + 1];
    Push(heap, weight, i, i + 1, Upto(i));
    PlantedOpens(heap[..i + 2], weight[..], i + 1);
  }

  lemma {:induction false} WeightWithin(was: seq<int>, wt: seq<int>, v: int, k: nat)
    requires LeafCells(was, wt) && 0 <= v <= k < |wt|
    ensures WeightSum(wt, k) >= 0 && (v > 0 ==> wt[v] <= WeightSum(wt, k))
  {
    if k > 0 {
      assert was[k] == 256 * wt[k];
      WeightWithin(was, wt, if v < k then v else 0, k - 1);
    }
  }

  lemma LeavesBuilt(wt: seq<int>, a: nat, w: seq<int>, was: seq<int>)
    requires 2 <= a && |wt| == a + 1 && LeafCells(was, wt) && |w| == |was| && w[0] == 0
      && WeightSum(wt, a) < WEIGHT_LIMIT
    requires forall v {:trigger w[v]} :: 1 <= v < |w| ==> w[v] == was[v]
    ensures Grown(Leaves(wt), a) && Weighed(Leaves(wt)) && Packed(w, Leaves(wt))
  {
    var f := Leaves(wt);
    forall v {:trigger w[v]} | 1 <= v <= a
      ensures w[v] == 256 * f.wt[v] + f.dp[v] && 0 <= f.dp[v] < 256 && f.wt[v] >= 1 && w[v] < INT_LIMIT
    {
      assert was[v] == 256 * wt[v];
      WeightWithin(was, wt, v, a);
    }
    forall v {:trigger f.wt[v]} {:trigger f.dp[v]} | 1 <= v <= a ensures f.dp[v] >= 0 && f.wt[v] >= Fib(f.dp[v]) {
      assert was[v] == 256 * wt[v];
    }
    forall v {:trigger v in f.live} | v in f.live ensures 1 <= v <= f.n() && f.wt[v] >= f.low && f.dp[v] == 0 {
      assert was[v] == 256 * wt[v];
    }
  }

  /** The tree is finished: one root, as heavy as all the leaves together. */
  ghost predicate Finished(f: Forest, a: nat, total: int, parent: seq<int>) {
    && Whole(f, a) && f.n() == 2 * a - 1 < |parent| && f.wt[f.n()] == total
    && (forall v {:trigger f.dp[v]} :: 1 <= v <= f.n() ==> f.dp[v] >= 0) && Fib(f.dp[f.n()]) <= total
    && forall v {:trigger parent[v]} :: 1 <= v <= f.n() ==> parent[v] == f.par[v]
  }

  lemma BuildEnds(f: Forest, a: nat, total: int, h: seq<int>, weight: seq<int>, parent: seq<int>)
    requires Building(f, a, total, h, weight, parent) && |h| == 2
    ensures Finished(f, a, total, parent)
  {
    var n := f.n();
    BagOpens(h, f.live);
    assert h == [0, h[1]];
    assert n in f.live;
    assert f.live == {n} by {
      forall v | v in f.live ensures v == n {
        assert v in multiset(h) && n in multiset(h);
      }
    }
    GrownParents(f, a);
    LiveSumOne(f.wt, f.live, n);
    assert f.wt[n] >= Fib(f.dp[n]);
  }

  lemma LiveSumOne(wt: seq<int>, live: set<int>, n: nat)
    requires 1 <= n < |wt| && live == {n}
    ensures LiveSum(wt, live, n) == wt[n]
  {
    LiveSumNone(wt, live, n - 1);
  }

  lemma {:induction false} LiveSumNone(wt: seq<int>, live: set<int>, k: nat)
    requires k < |wt| && forall v {:trigger v in live} :: v in live ==> v > k
    ensures LiveSum(wt, live, k) == 0
  {
    if k > 0 { LiveSumNone(wt, live, k - 1); }
  }

  /** Plants the leaves and joins until one tree is left. */
  method BuildTree(heap: array<int>, weight: array<int>, parent: array<int>, a: nat, ghost wt: seq<int>)
      returns (ghost f: Forest)
    requires heap != weight && heap != parent && weight != parent && heap.Length == MAX_ALPHA + 2
    requires weight.Length == parent.Length == 2 * MAX_ALPHA && 2 <= a <= MAX_ALPHA && |wt| == a + 1
    requires LeafCells(weight[..], wt) && WeightSum(wt, a) < WEIGHT_LIMIT
    modifies heap, weight, parent
    ensures Finished(f, a, WeightSum(wt, a), parent[..]) && LeafCells(weight[..], wt) && Packed(weight[..], f)
    ensures Greedy(f, a) && OldLeaves(f, wt)
  {
    ghost var total := WeightSum(wt, a);
    PlantLeaves(heap, weight, parent, a, wt);
    f := Leaves(wt);
    LeavesGreedy(wt, a, weight[..]);
    var nNodes, nHeap := a, a;
    assert nHeap < MAX_ALPHA + 2;  // 2001
    while nHeap > 1
      invariant 1 <= nHeap <= a && nNodes == f.n() && nNodes + nHeap == 2 * a
      invariant Building(f, a, total, heap[..nHeap + 1], weight[..], parent[..]) && OldLeaves(f, wt) && Greedy(f, a)
    {
      ghost var g := JoinTwo(heap, weight, parent, nHeap, nNodes, f, a, total);
      LeavesKeep(f, g, wt);
      f := g;
      nHeap, nNodes := nHeap - 1, nNodes + 1;
    }
    assert nNodes < 2 * MAX_ALPHA;  // 2002
    BuildEnds(f, a, total, heap[..nHeap + 1], weight[..], parent[..]);
    LeavesStay(weight[..], f, wt);
  }

  lemma LeavesGreedy(wt: seq<int>, a: nat, weight: seq<int>)
    requires |wt| == a + 1 && Packed(weight, Leaves(wt))
    ensures Greedy(Leaves(wt), a)
  {
    var f := Leaves(wt);
    forall v {:trigger f.wt[v]} | 1 <= v <= f.n() ensures f.wt[v] >= 0 { assert weight[v] == 256 * f.wt[v] + f.dp[v]; }
  }

  /** The leaves' weights are still those of wt. */
  ghost predicate OldLeaves(f: Forest, wt: seq<int>) {
    && |wt| <= |f.wt| == |f.dp| && forall v {:trigger f.wt[v]} {:trigger f.dp[v]} :: 1 <= v < |wt| ==>
         f.wt[v] == wt[v] && f.dp[v] == 0
  }

  lemma LeavesKeep(f: Forest, g: Forest, wt: seq<int>)
    requires OldLeaves(f, wt) && Extends(f, g)
    ensures OldLeaves(g, wt)
  {
    forall v {:trigger g.wt[v]} {:trigger g.dp[v]} | 1 <= v < |wt| ensures g.wt[v] == wt[v] && g.dp[v] == 0 {
      assert f.wt[v] == g.wt[v] && f.dp[v] == g.dp[v];
    }
  }

  lemma LeavesStay(weight: seq<int>, f: Forest, wt: seq<int>)
    requires Packed(weight, f) && OldLeaves(f, wt) && |wt| > 0
    ensures LeafCells(weight, wt)
  {
    forall v {:trigger weight[v]} | 1 <= v < |wt| ensures weight[v] == 256 * wt[v] && wt[v] >= 1 {
      assert weight[v] == 256 * f.wt[v] + f.dp[v];
    }
  }

  // ---- lengths ----

  /** Climbs from leaf k to the root. */
  method Climb(parent: array<int>, leaf: int, ghost f: Forest, ghost a: nat, ghost total: int) returns (j: nat)
    requires Finished(f, a, total, parent[..]) && 1 <= leaf <= a
    ensures j == Depth(f.par, leaf)
  {
    var k := leaf;
    j := 0;
    while parent[k] >= 0
      invariant 1 <= k <= f.n() && j + Depth(f.par, k) == Depth(f.par, leaf) && parent[k] == f.par[k]
      decreases f.n() - k
    {
      assert parent[k] == f.par[k];
      assert k < f.par[k] <= f.n();
      k := parent[k];
      j := j + 1;
      assert parent[k] == parent[..][k];
    }
  }

  /** The lengths read off the tree, and whether one is too long. */
  method ReadLengths(len: array<int>, parent: array<int>, a: nat, maxLen: nat, ghost f: Forest, ghost total: int)
      returns (tooLong: bool)
    requires len != parent && len.Length >= a && Finished(f, a, total, parent[..])
    modifies len
    ensures forall i {:trigger len[i]} :: 0 <= i < a ==> len[i] == Depth(f.par, i + 1)
    ensures tooLong <==> exists i :: 0 <= i < a && len[i] > maxLen
  {
    tooLong := false;
    for i := 0 to a
      invariant forall v {:trigger len[v]} :: 0 <= v < i ==> len[v] == Depth(f.par, v + 1)
      invariant tooLong <==> exists v :: 0 <= v < i && len[v] > maxLen
    {
      len[i] := Climb(parent, i + 1, f, a, total);
      if len[i] > maxLen { tooLong := true; }
    }
  }

  /** weight[i] = (1 + (weight[i] >> 8) / 2) << 8. */
  function Halved(w: int): int { 1 + w / 2 }

  lemma CellsPositive(cells: seq<int>, wt: seq<int>)
    requires LeafCells(cells, wt)
    ensures forall v {:trigger wt[v]} :: 1 <= v < |wt| ==> wt[v] >= 1
  {
    forall v {:trigger wt[v]} | 1 <= v < |wt| ensures wt[v] >= 1 { assert cells[v] == 256 * wt[v]; }
  }

  method Scale(weight: array<int>, a: nat, ghost wt: seq<int>) returns (ghost wt': seq<int>)
    requires |wt| == a + 1 && LeafCells(weight[..], wt)
    modifies weight
    ensures |wt'| == |wt| && LeafCells(weight[..], wt') && forall v {:trigger wt'[v]} :: 1 <= v <= a ==>
      wt'[v] == Halved(wt[v])
    ensures WeightSum(wt', a) <= WeightSum(wt, a) && (WeightSum(wt, a) > 2 * a ==> WeightSum(wt', a) < WeightSum(wt, a))
  {
    wt' := wt;
    CellsPositive(weight[..], wt);
    for i := 1 to a + 1
      invariant |wt'| == a + 1 && LeafCells(weight[..], wt')
      invariant forall v {:trigger wt'[v]} :: 1 <= v <= a ==> wt'[v] == if v < i then Halved(wt[v]) else wt[v]
    {
      ghost var was := weight[..];
      assert weight[i] == was[i] == 256 * wt'[i];
      var j := weight[i] / 256;
      j := 1 + j / 2;
      weight[i] := j * 256;
      wt' := wt'[i := j];
      ghost var now := weight[..];
      forall v {:trigger now[v]} | 1 <= v <= a ensures now[v] == 256 * wt'[v] && wt'[v] >= 1 {
        if v != i { assert was[v] == now[v]; }
      }
    }
    HalvedSum(wt, wt', a);
  }

  /** Halving makes the leaves lighter as long as one weighs more than 2. */
  lemma {:induction false} HalvedSum(wt: seq<int>, wt': seq<int>, k: nat)
    requires k < |wt| == |wt'| && (forall v {:trigger wt[v]} :: 1 <= v <= k ==> wt[v] >= 1)
    requires forall v {:trigger wt'[v]} :: 1 <= v <= k ==> wt'[v] == Halved(wt[v])
    ensures WeightSum(wt', k) <= WeightSum(wt, k) && (WeightSum(wt, k) > 2 * k ==> WeightSum(wt', k) < WeightSum(wt, k))
  {
    if k > 0 {
      HalvedSum(wt, wt', k - 1);
      assert wt'[k] == Halved(wt[k]);
    }
  }

  lemma LongMeansHeavy(f: Forest, a: nat, total: int, parent: seq<int>, v: int, maxLen: nat)
    requires Finished(f, a, total, parent) && 1 <= v <= a && Depth(f.par, v) > maxLen
    ensures total >= Fib(maxLen + 1)
  {
    DepthWithin(f, a, v);
    FibMono(maxLen + 1, f.dp[f.n()]);
  }

  /** What the lengths promise: each between 1 and maxLen, and the code they make complete. */
  ghost predicate Complete(len: seq<int>, maxLen: nat) {
    && (forall i {:trigger len[i]} :: 0 <= i < |len| ==> 1 <= len[i] <= maxLen)
    && Sum(Shares(len, maxLen)) == Pow2(maxLen)
  }

  lemma LengthsPositive(f: Forest, a: nat, total: int, parent: seq<int>, len: seq<int>)
    requires Finished(f, a, total, parent) && |len| == a
    requires forall i {:trigger len[i]} :: 0 <= i < a ==> len[i] == Depth(f.par, i + 1)
    ensures forall i {:trigger len[i]} :: 0 <= i < a ==> 1 <= len[i]
  {
    forall i {:trigger len[i]} | 0 <= i < a ensures 1 <= len[i] { DepthWithin(f, a, i + 1); }
  }

  lemma LengthsComplete(f: Forest, a: nat, total: int, parent: seq<int>, len: seq<int>, maxLen: nat)
    requires Finished(f, a, total, parent) && |len| == a
    requires forall i {:trigger len[i]} :: 0 <= i < a ==> len[i] == Depth(f.par, i + 1) && len[i] <= maxLen
    ensures Complete(len, maxLen)
  {
    LengthsPositive(f, a, total, parent, len);
    var d := f.dp[f.n()];
    LeavesComplete(f, a, maxLen + d, len);
    SharesRescale(len, maxLen, d);
  }

  lemma SharesRescale(len: seq<int>, lim: nat, d: nat)
    requires (forall i {:trigger len[i]} :: 0 <= i < |len| ==> 0 <= len[i] <= lim)
      && Sum(Shares(len, lim + d)) == Pow2(lim + d)
    ensures Sum(Shares(len, lim)) == Pow2(lim)
  {
    SharesScale(len, lim, d);
    PowCancel(Sum(Shares(len, lim)), lim, d);
  }

  lemma LastShare(len: seq<int>, lim: nat) returns (s: int, x: int)
    requires len != [] && forall i {:trigger len[i]} :: 0 <= i < |len| ==> 0 <= len[i] <= lim
    ensures s == Sum(Shares(len[..|len| - 1], lim)) && x == Pow2(lim - len[|len| - 1]) && Sum(Shares(len, lim)) == s + x
  {
    var m := |len| - 1;
    assert Shares(len, lim)[..m] == Shares(len[..m], lim);
    s, x := Sum(Shares(len[..m], lim)), Pow2(lim - len[m]);
  }

  lemma SharesScale(len: seq<int>, lim: nat, d: nat)
    requires forall i {:trigger len[i]} :: 0 <= i < |len| ==> 0 <= len[i] <= lim
    ensures Sum(Shares(len, lim + d)) == Sum(Shares(len, lim)) * Pow2(d)
  {
    SharesScaleBy(len, lim, d, Pow2(d));
  }

  ghost predicate Scaled(y: int, x: int, p: int) { y == x * p }

  lemma {:induction false} SharesScaleBy(len: seq<int>, lim: nat, d: nat, p: int)
    requires p == Pow2(d) && forall i {:trigger len[i]} :: 0 <= i < |len| ==> 0 <= len[i] <= lim
    ensures Scaled(Sum(Shares(len, lim + d)), Sum(Shares(len, lim)), p)
    decreases |len|
  {
    if len != [] {
      var m := |len| - 1;
      SharesScaleBy(len[..m], lim, d, p);
      var s, x := LastShare(len, lim);
      var s', x' := LastShare(len, lim + d);
      ShareScaled(len[m], lim, d, p);
      ScaleSum(s, x, p, s', x', Sum(Shares(len, lim)), Sum(Shares(len, lim + d)));
    }
  }

  lemma ShareScaled(l: nat, lim: nat, d: nat, p: int)
    requires l <= lim && p == Pow2(d)
    ensures Scaled(Pow2(lim + d - l), Pow2(lim - l), p)
  {
    PowAdd(lim - l, d);
  }

  lemma ScaleSum(x: int, y: int, z: int, xs: int, ys: int, t: int, ts: int)
    requires Scaled(xs, x, z) && Scaled(ys, y, z) && t == x + y && ts == xs + ys
    ensures Scaled(ts, t, z)
  {
    Distribute(x, y, z);
  }

  lemma Distribute(x: int, y: int, z: int)
    ensures (x + y) * z == x * z + y * z
  {
  }

  lemma PowCancel(x: int, lim: nat, d: nat)
    requires x * Pow2(d) == Pow2(lim + d)
    ensures x == Pow2(lim)
  {
    PowAdd(lim, d);
    CancelLe(x, Pow2(lim), Pow2(d));
    CancelLe(Pow2(lim), x, Pow2(d));
  }

  /** What a symbol of some frequency weighs after r scalings. */
  function WeightAfter(freq: int, r: nat): int {
    if r == 0 then if freq == 0 then 1 else freq else 1 + WeightAfter(freq, r - 1) / 2
  }

  function Weights(freq: seq<int>, r: nat): (w: seq<int>)
    ensures |w| == |freq| && forall i {:trigger w[i]} :: 0 <= i < |w| ==> w[i] == WeightAfter(freq[i], r)
  {
    seq(|freq|, i requires 0 <= i < |freq| => WeightAfter(freq[i], r))
  }

  ghost predicate Frequencies(freq: seq<int>, a: nat) {
    && |freq| >= a && (forall i {:trigger freq[i]} :: 0 <= i < a ==> freq[i] >= 0) && Sum(freq[..a]) + a < WEIGHT_LIMIT
  }

  lemma {:induction false} LeafSum(freq: seq<int>, wt: seq<int>, k: nat)
    requires k <= |freq| && k < |wt| && forall i {:trigger freq[i]} :: 0 <= i < k ==>
      freq[i] >= 0 && wt[i + 1] == WeightAfter(freq[i], 0)
    ensures WeightSum(wt, k) <= Sum(freq[..k]) + k
  {
    if k > 0 {
      LeafSum(freq, wt, k - 1);
      assert freq[..k][..k - 1] == freq[..k - 1] && wt[k] == WeightAfter(freq[k - 1], 0);
    }
  }

  /** wt holds the weights after r scalings in 1..a. */
  ghost predicate Weighs(wt: seq<int>, freq: seq<int>, r: nat) {
    |wt| == |freq| + 1 && forall v {:trigger wt[v]} :: 1 <= v < |wt| ==> wt[v] == WeightAfter(freq[v - 1], r)
  }

  method LeafWeights(weight: array<int>, freq: array<int>, a: nat) returns (ghost wt: seq<int>)
    requires weight != freq && a < weight.Length && Frequencies(freq[..], a)
    modifies weight
    ensures Weighs(wt, freq[..a], 0) && LeafCells(weight[..], wt) && WeightSum(wt, a) < WEIGHT_LIMIT
  {
    ghost var fr := freq[..];
    wt := seq(a + 1, v => if 1 <= v <= |fr| then WeightAfter(fr[v - 1], 0) else 0);
    for i := 0 to a
      invariant forall v {:trigger weight[v]} :: 1 <= v <= i ==> weight[v] == 256 * wt[v] && wt[v] >= 1
    {
      assert fr[i] == freq[i];
      weight[i + 1] := (if freq[i] == 0 then 1 else freq[i]) * 256;
    }
    LeafSum(fr, wt, a);
  }

  /** Some best code for these weights has a length above maxLen. */
  ghost predicate Outgrows(w: seq<int>, maxLen: nat) {
    exists m, lim: nat {:trigger IsCode(m, lim)} :: IsCode(m, lim) && Best(m, w) && TooLong(m, maxLen)
  }

  ghost predicate TooLong(m: seq<int>, maxLen: nat) { exists i {:trigger m[i]} :: 0 <= i < |m| && m[i] > maxLen }

  /** The lengths are those of a complete code up to maxLen that no code beats for the weights after r scalings, and
      each scaling was made because the lengths of such a code did not fit. */
  ghost predicate Fitted(len: seq<int>, freq: seq<int>, maxLen: nat, r: nat) {
    Complete(len, maxLen) && Best(len, Weights(freq, r)) && AllOutgrow(freq, maxLen, r)
  }

  ghost predicate AllOutgrow(freq: seq<int>, maxLen: nat, r: nat) {
    forall q {:trigger Weights(freq, q)} :: 0 <= q < r ==> Outgrows(Weights(freq, q), maxLen)
  }

  lemma OutgrowMore(freq: seq<int>, maxLen: nat, r: nat)
    requires AllOutgrow(freq, maxLen, r) && Outgrows(Weights(freq, r), maxLen)
    ensures AllOutgrow(freq, maxLen, r + 1)
  {
  }

  lemma WeighsMore(wt: seq<int>, next: seq<int>, freq: seq<int>, r: nat)
    requires Weighs(wt, freq, r) && |next| == |wt| && forall v {:trigger next[v]} :: 1 <= v < |wt| ==>
      next[v] == 1 + wt[v] / 2
    ensures Weighs(next, freq, r + 1)
  {
  }

  /** What a finished tree says about its lengths. */
  lemma TreeLengths(f: Forest, a: nat, total: int, parent: seq<int>, wt: seq<int>, freq: seq<int>, r: nat,
      len: seq<int>)
    requires Finished(f, a, total, parent) && Greedy(f, a) && OldLeaves(f, wt) && Weighs(wt, freq, r)
      && |freq| == a == |len|
    requires forall i {:trigger len[i]} :: 0 <= i < a ==> len[i] == Depth(f.par, i + 1)
    ensures Best(len, Weights(freq, r)) && f.dp[f.n()] >= 0 && IsCode(len, f.dp[f.n()])
  {
    var w, lim := Weights(freq, r), f.dp[f.n()];
    forall i {:trigger w[i]} | 0 <= i < a
      ensures w[i] == f.wt[i + 1]
    {
      assert wt[i + 1] == WeightAfter(freq[i], r) && f.wt[i + 1] == wt[i + 1];
    }
    TreeBest(f, a, w, len);
    forall i {:trigger len[i]} | 0 <= i < a
      ensures 0 <= len[i] <= lim
    {
      DepthWithin(f, a, i + 1);
      assert f.dp[i + 1] >= 0;
    }
    LeavesComplete(f, a, lim, len);
  }

  /** One tree and its lengths. */
  method Attempt(len: array<int>, heap: array<int>, weight: array<int>, parent: array<int>, a: nat, maxLen: nat,
      ghost wt: seq<int>, ghost freq: seq<int>, ghost r: nat) returns (tooLong: bool)
    requires heap != weight && heap != parent && weight != parent && heap.Length == MAX_ALPHA + 2 && len != heap
      && len != weight
      && len != parent && a <= len.Length
    requires weight.Length == parent.Length == 2 * MAX_ALPHA && 2 <= a <= MAX_ALPHA && |freq| == a
      && Weighs(wt, freq, r)
    requires LeafCells(weight[..], wt) && WeightSum(wt, a) < WEIGHT_LIMIT
    modifies len, heap, weight, parent
    ensures LeafCells(weight[..], wt)
    ensures !tooLong ==> Complete(len[..a], maxLen) && Best(len[..a], Weights(freq, r))
    ensures tooLong ==> Outgrows(Weights(freq, r), maxLen) && WeightSum(wt, a) >= Fib(maxLen + 1)
  {
    ghost var f := BuildTree(heap, weight, parent, a, wt);
    ghost var total := WeightSum(wt, a);
    tooLong := ReadLengths(len, parent, a, maxLen, f, total);
    ghost var out := len[..a];
    assert forall i {:trigger out[i]} :: 0 <= i < a ==> out[i] == len[i];
    assert tooLong <==> TooLong(out, maxLen);
    AttemptSays(f, a, total, parent[..], wt, freq, r, out, maxLen);
  }

  lemma AttemptSays(f: Forest, a: nat, total: int, parent: seq<int>, wt: seq<int>, freq: seq<int>, r: nat,
      len: seq<int>, maxLen: nat)
    requires Finished(f, a, total, parent) && Greedy(f, a) && OldLeaves(f, wt) && Weighs(wt, freq, r)
      && |freq| == a == |len|
    requires forall i {:trigger len[i]} :: 0 <= i < a ==> len[i] == Depth(f.par, i + 1)
    ensures if TooLong(len, maxLen) then Outgrows(Weights(freq, r), maxLen) && total >= Fib(maxLen + 1)
            else Complete(len, maxLen) && Best(len, Weights(freq, r))
  {
    TreeLengths(f, a, total, parent, wt, freq, r, len);
    if TooLong(len, maxLen) {
      var i :| 0 <= i < |len| && len[i] > maxLen;
      LongMeansHeavy(f, a, total, parent, i + 1, maxLen);
    } else {
      LengthsComplete(f, a, total, parent, len, maxLen);
    }
  }

  /** BZ2_hbMakeCodeLengths. For 258 symbols any limit of 13 or more will do: a tree of weights 1 and
      2 is never deeper. */
  method MakeCodeLengths(len: array<int>, freq: array<int>, alphaSize: nat, maxLen: nat) returns (ghost r: nat)
    requires 2 <= alphaSize <= MAX_ALPHA && alphaSize <= len.Length && len != freq && 2 * alphaSize < Fib(maxLen + 1)
    requires Frequencies(freq[..], alphaSize)
    modifies len
    ensures Fitted(len[..alphaSize], freq[..alphaSize], maxLen, r)
    ensures r == 0 ==>
      Best(len[..alphaSize],
        seq(alphaSize, i requires 0 <= i < alphaSize reads freq => if freq[i] == 0 then 1 else freq[i]))
  {
    var heap, weight, parent := new int[MAX_ALPHA + 2], new int[2 * MAX_ALPHA], new int[2 * MAX_ALPHA];
    ghost var wt := LeafWeights(weight, freq, alphaSize);
    ghost var fr := freq[..alphaSize];
    r := 0;
    while true
      modifies len, heap, weight, parent
      invariant Weighs(wt, fr, r) && LeafCells(weight[..], wt) && WeightSum(wt, alphaSize) < WEIGHT_LIMIT
      invariant AllOutgrow(fr, maxLen, r)
      decreases WeightSum(wt, alphaSize)
    {
      var tooLong := Attempt(len, heap, weight, parent, alphaSize, maxLen, wt, fr, r);
      if !tooLong { break; }
      ghost var next := Scale(weight, alphaSize, wt);
      WeighsMore(wt, next, fr, r);
      OutgrowMore(fr, maxLen, r);
      wt, r := next, r + 1;
    }
    FirstWeights(fr, seq(alphaSize, i requires 0 <= i < alphaSize reads freq => if freq[i] == 0 then 1 else freq[i]));
  }

  lemma FirstWeights(freq: seq<int>, w: seq<int>)
    requires |w| == |freq| && forall i {:trigger w[i]} :: 0 <= i < |w| ==> w[i] == if freq[i] == 0 then 1 else freq[i]
    ensures Weights(freq, 0) == w
  {
  }

  /** Without scaling, what is more frequent is not longer. */
  lemma FrequentShorter(len: seq<int>, freq: seq<int>, maxLen: nat, i: int, j: int)
    requires Fitted(len, freq, maxLen, 0) && 0 <= i < |freq| && 0 <= j < |freq| && freq[i] > freq[j] > 0
    ensures len[i] <= len[j]
  {
    HeavierShorter(len, Weights(freq, 0), maxLen, i, j);
  }

  /** One symbol eight times and three others once: its code is one bit long. */
  lemma EightToOne(len: seq<int>, maxLen: nat)
    requires Fitted(len, [8, 1, 1, 1], maxLen, 0)
    ensures len[0] == 1
  {
    var w, m := Weights([8, 1, 1, 1], 0), [1, 2, 3, 3];
    assert w == [8, 1, 1, 1];
    assert Pow2(0) == 1 && Pow2(1) == 2 && Pow2(2) == 4 && Pow2(3) == 8;
    FourSum(Shares(m, 3));
    assert IsCode(m, 3);
    FourSum(Prods(w, m));
    FourSum(Prods(w, len));
  }

  lemma FourSum(s: seq<int>)
    requires |s| == 4
    ensures Sum(s) == s[0] + s[1] + s[2] + s[3]
  {
    var a, b, c := s[..3], s[..2], s[..1];
    assert a[..2] == b && b[..1] == c && c[..0] == [];
    assert Sum(c) == s[0];
    assert Sum(b) == Sum(c) + s[1];
    assert Sum(a) == Sum(b) + s[2];
  }

  /** The compressor's call: 258 symbols at most, lengths up to 17, at most 900001 values coded. */
  lemma CompressorCall(freq: seq<int>, alphaSize: nat)
    requires 2 <= alphaSize <= MAX_ALPHA && |freq| >= alphaSize
      && (forall i {:trigger freq[i]} :: 0 <= i < alphaSize ==> freq[i] >= 0)
    requires Sum(freq[..alphaSize]) <= 900001
    ensures Frequencies(freq, alphaSize) && 2 * alphaSize < Fib(17 + 1)
  {
    assert Fib(8) == 55 && Fib(9) == 89;
    assert Fib(18) == 6765;
  }
}
