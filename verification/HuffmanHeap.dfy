/** The heap of BZ2_hbMakeCodeLengths: nodes ordered by weight, in cells 1..n of an array whose cell
    0 is a sentinel lighter than every node. */
module HuffmanHeap {
  import opened Segments

  /** Every entry is a node with a weight. */
  ghost predicate Nodes(h: seq<int>, w: seq<int>) {
    && |h| > 0 && |w| > 0 && h[0] == 0 && w[0] == 0
    && forall k {:trigger h[k]} :: 0 <= k < |h| ==> 0 <= h[k] < |w| && (k > 0 ==> w[h[k]] > 0)
  }

  /** Entry k is not lighter than its parent. */
  ghost predicate Ord(h: seq<int>, w: seq<int>, k: int)
    requires Nodes(h, w) && 2 <= k < |h|
  {
    w[h[k / 2]] <= w[h[k]]
  }

  /** Entry k is not lighter than the parent of entry z. */
  ghost predicate Over(h: seq<int>, w: seq<int>, z: int, k: int)
    requires Nodes(h, w) && 2 <= k < |h| && 2 <= z < |h|
  {
    w[h[z / 2]] <= w[h[k]]
  }

  ghost predicate IsHeap(h: seq<int>, w: seq<int>) {
    Nodes(h, w) && forall k {:trigger Ord(h, w, k)} :: 2 <= k < |h| ==> Ord(h, w, k)
  }

  lemma {:induction false} RootLightest(h: seq<int>, w: seq<int>, k: int)
    requires IsHeap(h, w) && 1 <= k < |h|
    ensures w[h[1]] <= w[h[k]]
    decreases k
  {
    if k > 1 {
      assert Ord(h, w, k);
      RootLightest(h, w, k / 2);
    }
  }

  lemma SwapNodes(h: seq<int>, w: seq<int>, i: int, j: int)
    requires Nodes(h, w) && 0 < i < |h| && 0 < j < |h|
    ensures Nodes(Swap(h, i, j), w)
  {
  }

  // ---- UPHEAP ----

  /** A heap but for entry z, which may be lighter than its parent. */
  ghost predicate Rising(h: seq<int>, w: seq<int>, z: int) {
    && Nodes(h, w) && 1 <= z < |h|
    && (forall k {:trigger Ord(h, w, k)} :: 2 <= k < |h| && k != z ==> Ord(h, w, k))
    && (z > 1 ==> forall k {:trigger Over(h, w, z, k)} :: 2 <= k < |h| && k / 2 == z ==> Over(h, w, z, k))
  }

  lemma Rise(h: seq<int>, w: seq<int>, z: int)
    requires Rising(h, w, z) && z > 1 && w[h[z]] < w[h[z / 2]]
    ensures Rising(Swap(h, z, z / 2), w, z / 2)
  {
    var p, g := z / 2, Swap(h, z, z / 2);
    SwapNodes(h, w, z, p);
    forall k {:trigger Ord(g, w, k)} | 2 <= k < |g| && k != p ensures Ord(g, w, k) {
      assert k != z ==> Ord(h, w, k);
      assert k / 2 == z ==> Over(h, w, z, k);
    }
    if p > 1 {
      assert Ord(h, w, p);
      forall k {:trigger Over(g, w, p, k)} | 2 <= k < |g| && k / 2 == p ensures Over(g, w, p, k) {
        assert k != z ==> Ord(h, w, k);
      }
    }
  }

  /** UPHEAP on the last entry. */
  method UpHeap(heap: array<int>, weight: array<int>, n: nat)
    requires heap != weight && 1 <= n < heap.Length && Rising(heap[..n + 1], weight[..], n)
    modifies heap
    ensures IsHeap(heap[..n + 1], weight[..]) && Rearranged(old(heap[..n + 1]), heap[..n + 1], 0, n + 1)
  {
    ghost var was, w := heap[..n + 1], weight[..];
    ghost var cur := was;
    RearrangedSame(was, 0, n + 1);
    var zz, tmp := n, heap[n];
    while weight[tmp] < weight[heap[zz / 2]]
      invariant 1 <= zz <= n && |cur| == n + 1 && Rising(cur, w, zz) && Rearranged(was, cur, 0, n + 1)
      invariant tmp == cur[zz] && 0 <= tmp < |w| && heap[zz / 2] == cur[zz / 2]
      invariant heap[..n + 1] == cur[zz := heap[zz]]
      decreases zz
    {
      var p := zz / 2;
      assert w[cur[p]] == weight[heap[p]];
      assert zz > 1;
      Rise(cur, w, zz);
      RearrangedSwap(was, cur, 0, n + 1, zz, p);
      heap[zz] := heap[p];
      cur := Swap(cur, zz, p);
      zz := p;
      assert heap[zz / 2] == heap[..n + 1][zz / 2];
    }
    heap[zz] := tmp;
    assert heap[..n + 1] == cur;
    assert zz > 1 ==> Ord(cur, w, zz);
  }

  // ---- DOWNHEAP ----

  /** A heap but for entry z, which may be heavier than its children. */
  ghost predicate Sinking(h: seq<int>, w: seq<int>, z: int) {
    && Nodes(h, w) && 1 <= z
    && (forall k {:trigger Ord(h, w, k)} :: 2 <= k < |h| && k / 2 != z ==> Ord(h, w, k))
    && (1 < z < |h| ==> forall k {:trigger Over(h, w, z, k)} :: 2 <= k < |h| && k / 2 == z ==> Over(h, w, z, k))
  }

  /** y is the lighter child of z. */
  ghost predicate Lighter(h: seq<int>, w: seq<int>, z: int, y: int)
    requires Nodes(h, w)
  {
    && 1 <= z && 2 <= y < |h| && y / 2 == z
    && (2 * z < |h| ==> w[h[y]] <= w[h[2 * z]]) && (2 * z + 1 < |h| ==> w[h[y]] <= w[h[2 * z + 1]])
  }

  lemma Sink(h: seq<int>, w: seq<int>, z: int, y: int)
    requires Sinking(h, w, z) && Lighter(h, w, z, y) && w[h[y]] <= w[h[z]]
    ensures Sinking(Swap(h, z, y), w, y)
  {
    var g := Swap(h, z, y);
    SwapNodes(h, w, z, y);
    forall k {:trigger Ord(g, w, k)} | 2 <= k < |g| ensures k / 2 != y ==> Ord(g, w, k) {
      if k / 2 == z {
        assert k == 2 * z || k == 2 * z + 1;
      } else if k / 2 != y {
        assert Ord(h, w, k);
        if k == z { assert Over(h, w, z, y); }
      }
    }
    forall k {:trigger Over(g, w, y, k)} | 2 <= k < |g| && k / 2 == y ensures Over(g, w, y, k) {
      assert Ord(h, w, k);
    }
  }

  lemma Sunk(h: seq<int>, w: seq<int>, z: int)
    requires Sinking(h, w, z)
    requires 2 * z < |h| ==> z < |h| && w[h[z]] <= w[h[2 * z]]
    requires 2 * z + 1 < |h| ==> w[h[z]] <= w[h[2 * z + 1]]
    ensures IsHeap(h, w)
  {
    forall k {:trigger Ord(h, w, k)} | 2 <= k < |h| ensures Ord(h, w, k) {
      if k / 2 == z { assert k == 2 * z || k == 2 * z + 1; }
    }
  }

  /** The lighter child of zz, if there is one. */
  method LighterChild(heap: array<int>, weight: array<int>, n: nat, zz: nat, ghost cur: seq<int>) returns (yy: nat)
    requires n < heap.Length && |cur| == n + 1 && Nodes(cur, weight[..]) && 1 <= zz && 2 * zz <= n
    requires forall k {:trigger heap[k]} :: zz < k <= n ==> heap[k] == cur[k]
    ensures yy <= n && Lighter(cur, weight[..], zz, yy)
  {
    yy := 2 * zz;
    assert heap[yy] == cur[yy];
    if yy < n {
      assert heap[yy + 1] == cur[yy + 1];
      if weight[heap[yy + 1]] < weight[heap[yy]] { yy := yy + 1; }
    }
  }

  /** tmp is taken out of z, and cur is the heap with it back in. Kept closed where it is only passed on. */
  ghost predicate Sifting(h: seq<int>, cur: seq<int>, was: seq<int>, w: seq<int>, z: int, tmp: int) {
    forall u {:trigger Open(h, u)} :: Open(h, u) ==> SiftingNow(h, cur, was, w, z, tmp)
  }

  ghost predicate SiftingNow(h: seq<int>, cur: seq<int>, was: seq<int>, w: seq<int>, z: int, tmp: int) {
    1 <= z < |cur| && Sinking(cur, w, z) && Rearranged(was, cur, 0, |cur|) && tmp == cur[z] && |h| == |cur|
      && h == cur[z := h[z]]
  }

  lemma SiftingStart(h: seq<int>, w: seq<int>)
    requires |h| > 1 && Sinking(h, w, 1)
    ensures Sifting(h, h, h, w, 1, h[1])
  {
    RearrangedSame(h, 0, |h|);
  }

  lemma SiftingEnd(h: seq<int>, cur: seq<int>, was: seq<int>, w: seq<int>, z: int, tmp: int)
    requires Sifting(h, cur, was, w, z, tmp)
    ensures 1 <= z < |h| == |cur| && h[z := tmp] == cur && Rearranged(was, cur, 0, |cur|)
  {
    assert Open(h, 0);
    assert h[z := tmp] == cur;
  }

  /** The hole goes from z to y, where the entry of z will go. */
  lemma SiftingMoves(h: seq<int>, cur: seq<int>, was: seq<int>, w: seq<int>, z: int, tmp: int, y: int)
    requires Sifting(h, cur, was, w, z, tmp) && Nodes(cur, w) && Lighter(cur, w, z, y) && w[cur[y]] <= w[cur[z]]
    ensures 0 <= z < |h| && 0 <= y < |h| && Sifting(h[z := h[y]], Swap(cur, z, y), was, w, y, tmp)
  {
    assert Open(h, 0);
    Sink(cur, w, z, y);
    RearrangedSwap(was, cur, 0, |cur|, z, y);
    var cur2, h2 := Swap(cur, z, y), h[z := h[y]];
    assert h2 == cur2[y := h2[y]];
  }

  /** Looks at the children of zz: yy is where to go, unless tmp may stay. */
  method LookDown(heap: array<int>, weight: array<int>, n: nat, zz: nat, tmp: int, ghost cur: seq<int>,
      ghost was: seq<int>)
      returns (stop: bool, yy: nat)
    requires n < heap.Length && zz <= n && |cur| == n + 1 && Sifting(heap[..n + 1], cur, was, weight[..], zz, tmp)
    ensures stop ==> IsHeap(cur, weight[..])
    ensures !stop ==>
      1 <= zz < yy <= n && Sifting(heap[..n + 1][zz := heap[yy]], Swap(cur, zz, yy), was, weight[..], yy, tmp)
  {
    ghost var h, w := heap[..n + 1], weight[..];
    assert Open(h, 0);
    yy := 0;
    if 2 * zz > n { Sunk(cur, w, zz); return true, 0; }
    forall k {:trigger heap[k]} | zz < k <= n ensures heap[k] == cur[k] { assert heap[k] == h[k]; }
    yy := LighterChild(heap, weight, n, zz, cur);
    stop := weight[tmp] < weight[heap[yy]];
    if stop { Sunk(cur, w, zz); } else { SiftingMoves(h, cur, was, w, zz, tmp, yy); }
  }

  /** DOWNHEAP(1) on n entries. */
  method DownHeap(heap: array<int>, weight: array<int>, n: nat)
    requires heap != weight && n < heap.Length && heap.Length > 1 && Sinking(heap[..n + 1], weight[..], 1)
    modifies heap
    ensures IsHeap(heap[..n + 1], weight[..]) && Rearranged(old(heap[..n + 1]), heap[..n + 1], 0, n + 1)
  {
    ghost var was, w := heap[..n + 1], weight[..];
    RearrangedSame(was, 0, n + 1);
    if n == 0 { return; }  // both stores of the macro put heap[1] back
    ghost var cur := was;
    SiftingStart(was, w);
    var zz, tmp := 1, heap[1];
    while true
      invariant 1 <= zz <= n && |cur| == n + 1 && Sifting(heap[..n + 1], cur, was, w, zz, tmp)
      decreases n - zz
    {
      ghost var h := heap[..n + 1];
      var stop, yy := LookDown(heap, weight, n, zz, tmp, cur, was);
      if stop { break; }
      heap[zz] := heap[yy];
      assert heap[..n + 1] == h[zz := h[yy]];
      cur := Swap(cur, zz, yy);
      zz := yy;
    }
    ghost var h := heap[..n + 1];
    SiftingEnd(h, cur, was, w, zz, tmp);
    heap[zz] := tmp;
    assert heap[..n + 1] == h[zz := tmp];
  }

  // ---- which nodes are in the heap ----

  /** The entries of the heap are the sentinel and the live nodes, once each. */
  ghost predicate BagOf(h: seq<int>, live: set<int>) {
    0 !in live && multiset(h) == multiset(live + {0})
  }

  /** BagOf, kept closed where it is only passed on. */
  ghost predicate Bag(h: seq<int>, live: set<int>) {
    forall u {:trigger Open(h, u)} :: Open(h, u) ==> BagOf(h, live)
  }

  ghost predicate Open(h: seq<int>, u: int) { true }

  lemma BagOpens(h: seq<int>, live: set<int>)
    ensures Bag(h, live) <==> BagOf(h, live)
  {
    assert Open(h, 0);
  }

  lemma BagEmpty(h: seq<int>, live: set<int>)
    requires h == [0] && live == {}
    ensures Bag(h, live)
  {
    assert multiset(live + {0}) == multiset{0};
  }

  lemma BagPop(h: seq<int>, live: set<int>, x: int, g: seq<int>)
    requires Bag(h, live) && x in multiset(h) && x > 0 && multiset(g) == multiset(h) - multiset{x}
    ensures x in live && Bag(g, live - {x})
  {
    BagOpens(h, live);
    assert multiset(live + {0}) - multiset{x} == multiset(live - {x} + {0});
  }

  lemma BagPush(h: seq<int>, live: set<int>, x: int, g: seq<int>)
    requires Bag(h, live) && x !in live && x > 0 && Rearranged(h + [x], g, 0, |h| + 1)
    ensures Bag(g, live + {x})
  {
    BagOpens(h, live);
    RearrangedAll(h + [x], g, 0, |h| + 1);
    assert multiset(live + {0}) + multiset{x} == multiset(live + {x} + {0});
  }

  lemma BagAt(h: seq<int>, live: set<int>, v: int) returns (k: int)
    requires Bag(h, live) && v in live && |h| > 0 && h[0] == 0
    ensures 1 <= k < |h| && h[k] == v
  {
    BagOpens(h, live);
    assert v in multiset(h);
    k :| 0 <= k < |h| && h[k] == v;
  }

  lemma BagFresh(h: seq<int>, live: set<int>, t: int)
    requires Bag(h, live) && t !in live && t > 0
    ensures forall k {:trigger h[k]} :: 0 <= k < |h| ==> h[k] != t
  {
    BagOpens(h, live);
    forall k {:trigger h[k]} | 0 <= k < |h| ensures h[k] != t { assert h[k] in multiset(h); }
  }

  // ---- taking the lightest node out ----

  lemma PopBag(h: seq<int>, g: seq<int>)
    requires |h| > 1 && g == h[1 := h[|h| - 1]][..|h| - 1]
    ensures multiset(g) == multiset(h) - multiset{h[1]}
  {
    var n := |h| - 1;
    assert h == h[..n] + [h[n]];
    if n == 1 {
      assert g == [h[0]] && h == [h[0], h[1]];
    } else {
      assert g == h[..n][1 := h[n]];
    }
  }

  lemma PopSinks(h: seq<int>, w: seq<int>)
    requires IsHeap(h, w) && |h| > 1
    ensures Sinking(h[1 := h[|h| - 1]][..|h| - 1], w, 1)
  {
    var g := h[1 := h[|h| - 1]][..|h| - 1];
    forall k {:trigger Ord(g, w, k)} | 2 <= k < |g| && k / 2 != 1 ensures Ord(g, w, k) { assert Ord(h, w, k); }
  }

  lemma PopLightest(h: seq<int>, g: seq<int>, w: seq<int>, k: int)
    requires IsHeap(h, w) && IsHeap(g, w) && |h| > 1 && multiset(g) == multiset(h) - multiset{h[1]} && 1 <= k < |g|
    ensures w[h[1]] <= w[g[k]]
  {
    assert g[k] in multiset(g) && g[k] in multiset(h);
    var j :| 0 <= j < |h| && h[j] == g[k];
    RootLightest(h, w, j);
  }

  lemma Popped(h: seq<int>, s: seq<int>, g: seq<int>, w: seq<int>, live: set<int>)
    requires IsHeap(h, w) && |h| > 1 && s == h[1 := h[|h| - 1]][..|h| - 1] && Rearranged(s, g, 0, |s|) && IsHeap(g, w)
    requires Bag(h, live)
    ensures h[1] in live && Bag(g, live - {h[1]}) && |g| == |s|
    ensures forall k {:trigger g[k]} :: 1 <= k < |g| ==> w[h[1]] <= w[g[k]]
  {
    PopBag(h, s);
    RearrangedAll(s, g, 0, |s|);
    forall k {:trigger g[k]} | 1 <= k < |g| ensures w[h[1]] <= w[g[k]] { PopLightest(h, g, w, k); }
    BagPop(h, live, h[1], g);
  }

  /** n1 = heap[1]; heap[1] = heap[nHeap]; nHeap--; DOWNHEAP(1): a lightest node leaves the heap. */
  method Pop(heap: array<int>, weight: array<int>, n: nat, ghost live: set<int>) returns (x: int)
    requires heap != weight && 1 <= n < heap.Length && IsHeap(heap[..n + 1], weight[..]) && Bag(heap[..n + 1], live)
    modifies heap
    ensures IsHeap(heap[..n], weight[..]) && x in live && Bag(heap[..n], live - {x}) && 0 < x < weight.Length
    ensures forall k {:trigger heap[..n][k]} :: 1 <= k < n ==> weight[x] <= weight[heap[..n][k]]
  {
    ghost var h, w := heap[..n + 1], weight[..];
    x := heap[1];
    assert x == h[1];
    heap[1] := heap[n];
    ghost var s := heap[..n];
    assert s == h[1 := h[n]][..n];
    PopSinks(h, w);
    DownHeap(heap, weight, n - 1);
    Popped(h, s, heap[..n], w, live);
  }

  lemma PushRises(h: seq<int>, w: seq<int>, v: int)
    requires IsHeap(h, w) && 0 < v < |w| && w[v] > 0
    ensures Rising(h + [v], w, |h|)
  {
    var g := h + [v];
    forall k {:trigger Ord(g, w, k)} | 2 <= k < |g| && k != |h| ensures Ord(g, w, k) { assert Ord(h, w, k); }
  }

  /** nHeap++; heap[nHeap] = v; UPHEAP(nHeap). */
  method Push(heap: array<int>, weight: array<int>, n: nat, v: int, ghost live: set<int>)
    requires heap != weight && n + 1 < heap.Length && IsHeap(heap[..n + 1], weight[..]) && Bag(heap[..n + 1], live)
    requires 0 < v < weight.Length && weight[v] > 0 && v !in live
    modifies heap
    ensures IsHeap(heap[..n + 2], weight[..]) && Bag(heap[..n + 2], live + {v})
  {
    ghost var h := heap[..n + 1];
    PushRises(h, weight[..], v);
    heap[n + 1] := v;
    assert heap[..n + 2] == h + [v];
    UpHeap(heap, weight, n + 1);
    BagPush(h, live, v, heap[..n + 2]);
  }

}
