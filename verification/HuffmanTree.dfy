/** The forest that BZ2_hbMakeCodeLengths builds by joining the two lightest trees: how deep a tree
    of given weight can be, and why the leaves' depths make a complete code. */
module HuffmanTree {
  import opened Bits

  /** Fibonacci numbers from 1, 2: the least weight of a tree of depth d. */
  function Fib(d: nat): (r: nat)
    ensures r >= 1
  {
    if d == 0 then 1 else if d == 1 then 2 else Fib(d - 1) + Fib(d - 2)
  }

  lemma {:induction false} FibMono(c: nat, d: nat)
    requires c <= d
    ensures Fib(c) <= Fib(d)
    decreases d
  {
    if c < d { FibMono(c, d - 1); }
  }

  /** Nodes 1..n: weights, depths below them, parents (-1 for a root), children of joined nodes. The
      roots are live; low is the weight of the last tree that was joined on. */
  datatype Forest = Forest(wt: seq<int>, dp: seq<int>, par: seq<int>, left: seq<int>, right: seq<int>,
      live: set<int>, low: int)
  {
    function n(): int { |wt| - 1 }
  }

  /** Parents come after children, a joined node has exactly its two children, leaves are 1..a. */
  ghost predicate Grown(f: Forest, a: nat) {
    && |f.wt| == |f.dp| == |f.par| == |f.left| == |f.right| > a
    && (forall v {:trigger v in f.live} :: v in f.live ==> 1 <= v <= f.n() && f.par[v] == -1)
    && (forall v {:trigger f.par[v]} :: 1 <= v <= f.n() && v !in f.live ==>
          v < f.par[v] <= f.n() && a < f.par[v] && f.dp[v] < f.dp[f.par[v]]
            && (v == f.left[f.par[v]] || v == f.right[f.par[v]]))
    && (forall t {:trigger JoinedNode(f, t)} :: a < t <= f.n() ==> JoinedNode(f, t))
  }

  /** Every tree is heavy enough for its depth, and every live tree at least as heavy as anything
      that was joined before. */
  ghost predicate Weighed(f: Forest) {
    && |f.wt| == |f.dp| > 0
    && (forall v {:trigger f.wt[v]} {:trigger f.dp[v]} :: 1 <= v <= f.n() ==> f.dp[v] >= 0 && f.wt[v] >= Fib(f.dp[v]))
    && (forall v {:trigger v in f.live} :: v in f.live ==>
          1 <= v <= f.n() && f.wt[v] >= f.low && (f.dp[v] > 0 ==> f.low >= Fib(f.dp[v] - 1)))
  }

  ghost function LiveSum(wt: seq<int>, live: set<int>, k: nat): int
    requires k < |wt|
  {
    if k == 0 then 0 else LiveSum(wt, live, k - 1) + if k in live then wt[k] else 0
  }

  ghost function Join(f: Forest, x: int, y: int): Forest
    requires |f.wt| == |f.dp| == |f.par| && 1 <= x <= f.n() && 1 <= y <= f.n()
  {
    var t := f.n() + 1;
    Forest(f.wt + [f.wt[x] + f.wt[y]], f.dp + [1 + if f.dp[x] > f.dp[y] then f.dp[x] else f.dp[y]],
      f.par[x := t][y := t] + [-1], f.left + [x], f.right + [y], f.live - {x} - {y} + {t}, f.wt[y])
  }

  /** x and y may be joined: two roots, x not heavier than y and y not heavier than the others. */
  ghost predicate Lightest(f: Forest, x: int, y: int) {
    && |f.wt| == |f.dp| && 1 <= x < |f.wt| && 1 <= y < |f.wt| && x in f.live && y in f.live && x != y
    && f.wt[x] <= f.wt[y]
    && forall v {:trigger v in f.live} :: v in f.live ==> 1 <= v <= f.n() && (v == x || f.wt[y] <= f.wt[v])
  }

  lemma JoinNode(f: Forest, a: nat, x: int, y: int, u: int)
    requires Grown(f, a) && x in f.live && y in f.live && x != y && a < u <= f.n() + 1
    ensures JoinedNode(Join(f, x, y), u)
  {
    if u <= f.n() { assert JoinedNode(f, u); }
  }

  lemma JoinParent(f: Forest, a: nat, x: int, y: int, v: int)
    requires Grown(f, a) && x in f.live && y in f.live && x != y && 1 <= v <= f.n()
      && (v == x || v == y || v !in f.live)
    ensures var g := Join(f, x, y);
            v < g.par[v] <= g.n() && a < g.par[v] && g.dp[v] < g.dp[g.par[v]]
              && (v == g.left[g.par[v]] || v == g.right[g.par[v]])
  {
    var g := Join(f, x, y);
    if v != x && v != y { assert g.par[v] == f.par[v]; }
  }

  lemma JoinGrown(f: Forest, a: nat, x: int, y: int)
    requires Grown(f, a) && x in f.live && y in f.live && x != y
    ensures Grown(Join(f, x, y), a)
  {
    var g, t := Join(f, x, y), f.n() + 1;
    forall v {:trigger v in g.live} | v in g.live ensures 1 <= v <= g.n() && g.par[v] == -1 {
      if v != t { assert v in f.live; }
    }
    forall v {:trigger g.par[v]} | 1 <= v <= g.n() && v !in g.live
      ensures v < g.par[v] <= g.n() && a < g.par[v] && g.dp[v] < g.dp[g.par[v]]
        && (v == g.left[g.par[v]] || v == g.right[g.par[v]])
    {
      JoinParent(f, a, x, y, v);
    }
    forall u {:trigger JoinedNode(g, u)} | a < u <= g.n() ensures JoinedNode(g, u) { JoinNode(f, a, x, y, u); }
  }

  ghost predicate JoinedNode(f: Forest, t: int)
    requires |f.par| == |f.left| == |f.right| && 0 <= t < |f.par|
  {
    1 <= f.left[t] < t && 1 <= f.right[t] < t && f.left[t] != f.right[t] && f.par[f.left[t]] == t
      && f.par[f.right[t]] == t
  }

  lemma RootWeighed(f: Forest, x: int, y: int)
    requires Weighed(f) && Lightest(f, x, y)
    ensures var deep := if f.dp[x] > f.dp[y] then f.dp[x] else f.dp[y];
            deep >= 0 && f.wt[x] + f.wt[y] >= Fib(deep + 1) && f.wt[y] >= Fib(deep)
  {
    var deep := if f.dp[x] > f.dp[y] then f.dp[x] else f.dp[y];
    assert f.wt[x] >= Fib(f.dp[x]) && f.wt[y] >= Fib(f.dp[y]);
    if deep > 0 { assert Fib(deep + 1) == Fib(deep) + Fib(deep - 1); }
  }

  /** The Fibonacci step: joining the two lightest trees keeps every tree heavy for its depth. */
  lemma JoinWeighed(f: Forest, a: nat, x: int, y: int)
    requires Grown(f, a) && Weighed(f) && Lightest(f, x, y)
    ensures Weighed(Join(f, x, y))
  {
    var g, t := Join(f, x, y), f.n() + 1;
    RootWeighed(f, x, y);
    forall v {:trigger g.wt[v]} {:trigger g.dp[v]} | 1 <= v <= g.n() ensures g.dp[v] >= 0 && g.wt[v] >= Fib(g.dp[v]) {
      if v != t { assert g.wt[v] == f.wt[v] && g.dp[v] == f.dp[v]; }
    }
    forall v {:trigger v in g.live} | v in g.live
      ensures 1 <= v <= g.n() && g.wt[v] >= g.low && (g.dp[v] > 0 ==> g.low >= Fib(g.dp[v] - 1))
    {
      if v != t { assert v in f.live && g.wt[v] == f.wt[v] && g.dp[v] == f.dp[v]; }
    }
  }

  lemma {:induction false} LiveSumWithout(wt: seq<int>, live: set<int>, x: int, k: nat)
    requires k < |wt| && x in live && 1 <= x < |wt|
    ensures LiveSum(wt, live - {x}, k) == LiveSum(wt, live, k) - if x <= k then wt[x] else 0
  {
    if k > 0 { LiveSumWithout(wt, live, x, k - 1); }
  }

  lemma {:induction false} LiveSumSame(wt: seq<int>, wt': seq<int>, live: set<int>, live': set<int>, k: nat)
    requires k < |wt| && k < |wt'|
      && (forall v {:trigger v in live} {:trigger v in live'} :: 1 <= v <= k ==> (v in live <==> v in live'))
    requires forall v {:trigger wt[v]} :: 1 <= v <= k && v in live ==> wt[v] == wt'[v]
    ensures LiveSum(wt, live, k) == LiveSum(wt', live', k)
  {
    if k > 0 { LiveSumSame(wt, wt', live, live', k - 1); }
  }

  /** Joining keeps the total weight. */
  lemma JoinSum(f: Forest, a: nat, x: int, y: int)
    requires Grown(f, a) && x in f.live && y in f.live && x != y
    ensures LiveSum(Join(f, x, y).wt, Join(f, x, y).live, f.n() + 1) == LiveSum(f.wt, f.live, f.n())
  {
    var g, t := Join(f, x, y), f.n() + 1;
    LiveSumWithout(f.wt, f.live, x, f.n());
    LiveSumWithout(f.wt, f.live - {x}, y, f.n());
    LiveSumSame(f.wt, g.wt, f.live - {x} - {y}, g.live, f.n());
    assert t in g.live && g.wt[t] == f.wt[x] + f.wt[y];
  }

  lemma {:induction false} LiveSumHolds(wt: seq<int>, live: set<int>, x: int, k: nat)
    requires 1 <= x <= k < |wt| && x in live && (forall v {:trigger wt[v]} :: 1 <= v < |wt| ==> wt[v] >= 0)
    ensures wt[x] <= LiveSum(wt, live, k)
    decreases k
  {
    LiveSumPositive(wt, live, k - 1);
    if x < k { LiveSumHolds(wt, live, x, k - 1); }
  }

  lemma {:induction false} LiveSumPositive(wt: seq<int>, live: set<int>, k: nat)
    requires k < |wt| && (forall v {:trigger wt[v]} :: 1 <= v < |wt| ==> wt[v] >= 0)
    ensures LiveSum(wt, live, k) >= 0
  {
    if k > 0 { LiveSumPositive(wt, live, k - 1); }
  }

  // ---- depths of the leaves ----

  ghost predicate Parents(par: seq<int>) {
    |par| > 0 && forall v {:trigger par[v]} :: 1 <= v < |par| ==> par[v] == -1 || v < par[v] < |par|
  }

  /** How many steps up from v to its root. */
  ghost function Depth(par: seq<int>, v: int): (r: nat)
    requires Parents(par) && 1 <= v < |par|
    decreases |par| - v
  {
    if par[v] < 0 then 0 else 1 + Depth(par, par[v])
  }

  /** One tree with root n. */
  ghost predicate Whole(f: Forest, a: nat) {
    Grown(f, a) && a < f.n() && f.live == {f.n()} && Parents(f.par)
  }

  lemma GrownParents(f: Forest, a: nat)
    requires Grown(f, a)
    ensures Parents(f.par)
  {
    forall v {:trigger f.par[v]} | 1 <= v < |f.par| ensures f.par[v] == -1 || v < f.par[v] < |f.par| {
      if v in f.live { }
    }
  }

  /** No leaf is deeper than the depth recorded in the root. */
  lemma {:induction false} DepthWithin(f: Forest, a: nat, v: int)
    requires Whole(f, a) && 1 <= v <= f.n()
    ensures Depth(f.par, v) + f.dp[v] <= f.dp[f.n()] && (v < f.n() ==> Depth(f.par, v) >= 1)
    decreases f.n() - v
  {
    if v < f.n() {
      assert v !in f.live;
      DepthWithin(f, a, f.par[v]);
    } else {
      assert v in f.live;
    }
  }

  // ---- the Kraft sum ----

  function Sum(s: seq<int>): int {
    if s == [] then 0 else Sum(s[..|s| - 1]) + s[|s| - 1]
  }

  lemma {:induction false} SumUpdate(s: seq<int>, i: int, x: int)
    requires 0 <= i < |s|
    ensures Sum(s[i := x]) == Sum(s) - s[i] + x
    decreases |s|
  {
    var m := |s| - 1;
    if i < m {
      assert s[i := x][..m] == s[..m][i := x];
      SumUpdate(s[..m], i, x);
    } else {
      assert s[i := x][..m] == s[..m];
    }
  }

  lemma {:induction false} SumZeros(s: seq<int>)
    requires forall k {:trigger s[k]} :: 0 <= k < |s| ==> s[k] == 0
    ensures Sum(s) == 0
  {
    if s != [] { SumZeros(s[..|s| - 1]); }
  }

  lemma {:induction false} SumZeroTail(s: seq<int>, m: nat)
    requires m <= |s| && forall k {:trigger s[k]} :: m <= k < |s| ==> s[k] == 0
    ensures Sum(s) == Sum(s[..m])
    decreases |s|
  {
    if m < |s| {
      assert s[..|s| - 1][..m] == s[..m];
      SumZeroTail(s[..|s| - 1], m);
    } else {
      assert s[..m] == s;
    }
  }

  /** What node v counts for in the Kraft sum, in units of 2^-lim. */
  ghost function Share(f: Forest, v: int, lim: nat): int
    requires Parents(f.par) && 1 <= v < |f.par|
  {
    if Depth(f.par, v) <= lim then Pow2(lim - Depth(f.par, v)) else 0
  }

  /** The nodes up to t whose parents are above t: together they cover the whole code space. */
  ghost predicate Frontier(f: Forest, t: int, lim: nat, s: seq<int>) {
    && Parents(f.par) && |s| == |f.par|
    && s[0] == 0 && forall v {:trigger s[v]} :: 1 <= v < |s| ==>
         s[v] == if v <= t && (f.par[v] < 0 || f.par[v] > t) then Share(f, v, lim) else 0
  }

  lemma ShareHalves(f: Forest, a: nat, t: int, lim: nat, c: int)
    requires Whole(f, a) && a < t <= f.n() && f.dp[f.n()] <= lim && (c == f.left[t] || c == f.right[t])
    requires forall v {:trigger f.dp[v]} :: 1 <= v <= f.n() ==> f.dp[v] >= 0
    ensures 1 <= c < t && 2 * Share(f, c, lim) == Share(f, t, lim)
  {
    assert JoinedNode(f, t);
    DepthWithin(f, a, t);
    DepthWithin(f, a, c);
    assert Depth(f.par, c) == Depth(f.par, t) + 1;
  }

  lemma FrontierStep(f: Forest, a: nat, t: int, lim: nat, s: seq<int>) returns (r: seq<int>)
    requires Whole(f, a) && a < t <= f.n() && f.dp[f.n()] <= lim && Frontier(f, t, lim, s)
    requires forall v {:trigger f.dp[v]} :: 1 <= v <= f.n() ==> f.dp[v] >= 0
    ensures Frontier(f, t - 1, lim, r) && Sum(r) == Sum(s)
  {
    var x, y := f.left[t], f.right[t];
    assert JoinedNode(f, t);
    ShareHalves(f, a, t, lim, x);
    ShareHalves(f, a, t, lim, y);
    var s1 := s[t := 0];
    var s2 := s1[x := Share(f, x, lim)];
    r := s2[y := Share(f, y, lim)];
    SumUpdate(s, t, 0);
    SumUpdate(s1, x, Share(f, x, lim));
    SumUpdate(s2, y, Share(f, y, lim));
    RootAbove(f, a, t);
    assert s[t] == Share(f, t, lim) && s[x] == 0 && s[y] == 0;
    forall v {:trigger r[v]} | 1 <= v < |r|
      ensures r[v] == if v <= t - 1 && (f.par[v] < 0 || f.par[v] > t - 1) then Share(f, v, lim) else 0
    {
      if v != x && v != y { OnlyChildren(f, a, t, v); assert v != t ==> s[v] == r[v]; }
    }
  }

  lemma OnlyChildren(f: Forest, a: nat, t: int, v: int)
    requires Whole(f, a) && a < t <= f.n() && 1 <= v <= f.n() && v != f.left[t] && v != f.right[t]
    ensures f.par[v] != t
  {
    if v !in f.live { assert v == f.left[f.par[v]] || v == f.right[f.par[v]]; }
  }

  lemma RootAbove(f: Forest, a: nat, t: int)
    requires Whole(f, a) && 1 <= t <= f.n()
    ensures f.par[t] < 0 || f.par[t] > t
  {
    if t in f.live { }
  }

  lemma {:induction false} FrontierSum(f: Forest, a: nat, t: int, lim: nat) returns (s: seq<int>)
    requires Whole(f, a) && a <= t <= f.n() && f.dp[f.n()] <= lim
    requires forall v {:trigger f.dp[v]} :: 1 <= v <= f.n() ==> f.dp[v] >= 0
    ensures Frontier(f, t, lim, s) && Sum(s) == Pow2(lim)
    decreases f.n() - t
  {
    var n := f.n();
    if t == n {
      assert n in f.live && Depth(f.par, n) == 0;
      var z := seq(n + 1, _ => 0);
      s := z[n := Pow2(lim)];
      SumZeros(z);
      SumUpdate(z, n, Pow2(lim));
      forall v {:trigger s[v]} | 1 <= v < |s|
        ensures s[v] == if v <= n && (f.par[v] < 0 || f.par[v] > n) then Share(f, v, lim) else 0
      {
        if v != n { assert v !in f.live; }
      }
    } else {
      var r := FrontierSum(f, a, t + 1, lim);
      s := FrontierStep(f, a, t + 1, lim, r);
    }
  }

  /** The share of the code space each length takes, in units of 2^-lim. */
  function Shares(len: seq<int>, lim: nat): (r: seq<int>)
    ensures |r| == |len| && forall i {:trigger r[i]} :: 0 <= i < |len| ==>
      r[i] == if 0 <= len[i] <= lim then Pow2(lim - len[i]) else 0
  {
    seq(|len|, i requires 0 <= i < |len| => if 0 <= len[i] <= lim then Pow2(lim - len[i]) else 0)
  }

  /** The leaves' depths use up the code space exactly: the Kraft sum is 1. */
  lemma LeavesComplete(f: Forest, a: nat, lim: nat, len: seq<int>)
    requires Whole(f, a) && f.dp[f.n()] <= lim && (forall v {:trigger f.dp[v]} :: 1 <= v <= f.n() ==> f.dp[v] >= 0)
    requires |len| == a && forall i {:trigger len[i]} :: 0 <= i < a ==> len[i] == Depth(f.par, i + 1) && len[i] <= lim
    ensures Sum(Shares(len, lim)) == Pow2(lim)
  {
    var s := FrontierSum(f, a, a, lim);
    SumZeroTail(s, a + 1);
    SumShift(s[..a + 1], Shares(len, lim), f, a, lim, len);
  }

  lemma SumShift(s: seq<int>, k: seq<int>, f: Forest, a: nat, lim: nat, len: seq<int>)
    requires Whole(f, a) && |s| == a + 1 && |k| == a == |len| && s[0] == 0
    requires forall v {:trigger s[v]} ::
      1 <= v <= a ==> s[v] == if f.par[v] < 0 || f.par[v] > a then Share(f, v, lim) else 0
    requires forall i {:trigger len[i]} :: 0 <= i < a ==> len[i] == Depth(f.par, i + 1) && len[i] <= lim
    requires forall i {:trigger k[i]} :: 0 <= i < a ==> k[i] == if 0 <= len[i] <= lim then Pow2(lim - len[i]) else 0
    ensures Sum(s) == Sum(k)
  {
    forall i | 0 <= i < a ensures s[i + 1] == k[i] {
      assert i + 1 !in f.live;
      assert f.par[i + 1] > a;
    }
    assert s == [0] + k;
    SumCons(k);
  }

  lemma {:induction false} SumCons(k: seq<int>)
    ensures Sum([0] + k) == Sum(k)
    decreases |k|
  {
    if k != [] {
      assert ([0] + k)[..|k|] == [0] + k[..|k| - 1];
      SumCons(k[..|k| - 1]);
    } else {
      assert [0] + k == [0] && [0][..0] == [];
    }
  }
}
