/** Why joining the two lightest trees gives the best lengths: no code costs less. */
module HuffmanOptimal {
  import opened Bits
  import opened HuffmanTree

  // ---- sums over the live nodes ----

  lemma {:induction false} LiveSumUpdate(s: seq<int>, live: set<int>, v: int, x: int, k: nat)
    requires 1 <= v < |s| && v in live && k < |s|
    ensures LiveSum(s[v := x], live, k) == LiveSum(s, live, k) + if v <= k then x - s[v] else 0
    decreases k
  {
    if k > 0 { LiveSumUpdate(s, live, v, x, k - 1); }
  }

  /** The products of weights and lengths. */
  function Prods(w: seq<int>, d: seq<int>): (r: seq<int>)
    requires |w| == |d|
    ensures |r| == |w| && forall i {:trigger r[i]} :: 0 <= i < |w| ==> r[i] == w[i] * d[i]
  {
    seq(|w|, i requires 0 <= i < |w| => w[i] * d[i])
  }

  lemma ProdsUpdate(w: seq<int>, d: seq<int>, v: int, x: int)
    requires |w| == |d| && 0 <= v < |w|
    ensures Prods(w, d[v := x]) == Prods(w, d)[v := w[v] * x]
  {
  }

  lemma SharesUpdate(d: seq<int>, lim: nat, v: int, x: int)
    requires 0 <= v < |d|
    ensures Shares(d[v := x], lim) == Shares(d, lim)[v := if 0 <= x <= lim then Pow2(lim - x) else 0]
  {
  }

  ghost predicate Within(live: set<int>, n: int) { forall v {:trigger v in live} :: v in live ==> 1 <= v <= n }

  /** Lengths for the live nodes that leave room for all codes. */
  ghost predicate Fits(d: seq<int>, live: set<int>, lim: nat, n: nat) {
    && n < |d| && Within(live, n) && (forall v {:trigger v in live} :: v in live ==> 0 <= d[v] <= lim)
    && LiveSum(Shares(d, lim), live, n) <= Pow2(lim)
  }

  ghost function Cost(w: seq<int>, d: seq<int>, live: set<int>, n: nat): int
    requires |w| == |d| && n < |w|
  {
    LiveSum(Prods(w, d), live, n)
  }

  /** One length changes. */
  lemma CostUpdate(w: seq<int>, d: seq<int>, live: set<int>, n: nat, v: int, x: int)
    requires |w| == |d| && 1 <= v <= n < |w| && v in live
    ensures Cost(w, d[v := x], live, n) == Cost(w, d, live, n) + (w[v] * x - w[v] * d[v])
  {
    ProdsUpdate(w, d, v, x);
    LiveSumUpdate(Prods(w, d), live, v, w[v] * x, n);
  }

  lemma ShareUpdate(d: seq<int>, live: set<int>, lim: nat, n: nat, v: int, x: int)
    requires n < |d| && 1 <= v <= n && v in live && 0 <= x <= lim && 0 <= d[v] <= lim
    ensures LiveSum(Shares(d[v := x], lim), live, n) ==
      LiveSum(Shares(d, lim), live, n) + Pow2(lim - x) - Pow2(lim - d[v])
  {
    SharesUpdate(d, lim, v, x);
    LiveSumUpdate(Shares(d, lim), live, v, Pow2(lim - x), n);
  }

  /** Two lengths change places. */
  lemma Swap(w: seq<int>, d: seq<int>, live: set<int>, lim: nat, n: nat, i: int, j: int) returns (e: seq<int>)
    requires |w| == |d| && Fits(d, live, lim, n) && i in live && j in live && w[i] <= w[j] && d[i] <= d[j]
    ensures e == d[i := d[j]][j := d[i]] && Fits(e, live, lim, n) && Cost(w, e, live, n) <= Cost(w, d, live, n)
  {
    e := d[i := d[j]][j := d[i]];
    if i == j {
      assert e == d;
    } else {
      assert 1 <= i <= n && 1 <= j <= n;
      var m := d[i := d[j]];
      CostUpdate(w, d, live, n, i, d[j]);
      CostUpdate(w, m, live, n, j, d[i]);
      ShareUpdate(d, live, lim, n, i, d[j]);
      ShareUpdate(m, live, lim, n, j, d[i]);
      Crossed(w[i], w[j], d[i], d[j]);
      forall v {:trigger v in live} | v in live ensures 0 <= e[v] <= lim { assert 0 <= d[v] <= lim; }
    }
  }

  lemma Crossed(a: int, b: int, x: int, y: int)
    requires a <= b && x <= y
    ensures a * y - a * x + b * x - b * y <= 0
  {
    assert a * y - a * x + b * x - b * y == (a - b) * (y - x);
    assert (a - b) * (y - x) <= 0 by { if a < b && x < y { Grows(a, b, y - x); } }
  }

  // ---- the deepest ----

  /** A deepest live node of x and the first k. */
  lemma {:induction false} Deepest(d: seq<int>, live: set<int>, k: nat, x: int) returns (z: int)
    requires k < |d| && x in live && 0 <= x < |d|
    ensures z in live && 0 <= z < |d| && d[x] <= d[z] && forall v {:trigger v in live} :: v in live && 1 <= v <= k ==>
      d[v] <= d[z]
    decreases k
  {
    z := x;
    if k > 0 {
      z := Deepest(d, live, k - 1, x);
      if k in live && d[k] > d[z] { z := k; }
    }
  }

  /** Lengths of at most m take multiples of 2^(lim-m). */
  lemma {:induction false} Multiple(d: seq<int>, live: set<int>, lim: nat, m: nat, k: nat) returns (q: nat)
    requires m <= lim && k < |d| && forall v {:trigger v in live} :: v in live ==> 1 <= v < |d| && 0 <= d[v] <= m
    ensures LiveSum(Shares(d, lim), live, k) == q * Pow2(lim - m)
    decreases k
  {
    q := 0;
    if k > 0 {
      q := Multiple(d, live, lim, m, k - 1);
      if k in live {
        PowAdd(m - d[k], lim - m);
        Distributes(q, Pow2(m - d[k]), Pow2(lim - m));
        q := q + Pow2(m - d[k]);
      }
    }
  }

  lemma Distributes(x: int, y: int, p: int)
    ensures (x + y) * p == x * p + y * p
  {
  }

  /** When all others are at most m deep, z need not be deeper. */
  lemma Raise(d: seq<int>, live: set<int>, lim: nat, n: nat, z: int, m: nat) returns (e: seq<int>)
    requires Fits(d, live, lim, n) && z in live && m <= d[z] && forall v {:trigger v in live} :: v in live && v != z ==>
      d[v] <= m
    ensures e == d[z := m] && Fits(e, live, lim, n)
  {
    e := d[z := m];
    var rest := live - {z};
    assert 0 <= d[z] <= lim;
    forall v {:trigger v in rest} | v in rest ensures 1 <= v < |d| && 0 <= d[v] <= m { assert v in live; }
    var q := Multiple(d, rest, lim, m, n);
    LiveSumWithout(Shares(d, lim), live, z, n);
    ShareUpdate(d, live, lim, n, z, m);
    PowAdd(m, lim - m);
    RoomLeft(q, Pow2(m), Pow2(lim - m), Pow2(lim - d[z]), Pow2(lim));
    forall v {:trigger v in live} | v in live ensures 0 <= e[v] <= lim { assert 0 <= d[v] <= lim; }
  }

  lemma RoomLeft(q: int, x: int, p: int, s: int, all: int)
    requires p > 0 && s > 0 && all == x * p && q * p + s <= all
    ensures q * p + p <= all
  {
    if q >= x {
      if q > x { Grows(x, q, p); }
    } else {
      if q + 1 < x { Grows(q + 1, x, p); }
      Distributes(q, 1, p);
    }
  }

  /** The two lightest can be made the deepest, at the same depth, at no cost. */
  lemma Even(w: seq<int>, d: seq<int>, live: set<int>, lim: nat, n: nat, x: int, y: int) returns (e: seq<int>)
    requires |w| == |d| && Fits(d, live, lim, n) && x in live && y in live && x != y
    requires w[x] <= w[y] && forall v {:trigger v in live} :: v in live ==> w[v] >= 0 && (v == x || w[y] <= w[v])
    ensures |e| == |d| && Fits(e, live, lim, n) && Cost(w, e, live, n) <= Cost(w, d, live, n) && e[x] == e[y] >= 1
  {
    var z := Deepest(d, live, n, x);
    var rest := live - {z};
    forall v {:trigger v in rest} | v in rest ensures 1 <= v <= n { assert v in live; }
    var u := Deepest(d, rest, n, if z == x then y else x);
    assert u in live;
    var m := d[u];
    forall v {:trigger v in live} | v in live && v != z ensures d[v] <= m { assert v in rest; }
    var d1 := Raise(d, live, lim, n, z, m);
    CostUpdate(w, d, live, n, z, m);
    Cheaper(w[z], m, d[z]);
    assert forall v {:trigger v in live} :: v in live ==> d1[v] <= m;
    var p := if x == z || x == u then x else if z != y then z else u;
    var q := if p == z then u else z;
    var d2 := Swap(w, d1, live, lim, n, x, p);
    assert d2[x] == m && d2[q] == m;
    assert d2[y] <= m;
    e := Swap(w, d2, live, lim, n, y, q);
    Positive(e, live, lim, n, x, y);
  }

  lemma Cheaper(w: int, m: int, d: int)
    requires w >= 0 && m <= d
    ensures w * m <= w * d
  {
    if m < d && w > 0 { Grows(m, d, w); }
  }

  /** Two codes of equal length are not empty. */
  lemma Positive(d: seq<int>, live: set<int>, lim: nat, n: nat, x: int, y: int)
    requires Fits(d, live, lim, n) && x in live && y in live && x != y && d[x] == d[y]
    ensures d[x] >= 1
  {
    var s := Shares(d, lim);
    LiveSumWithout(s, live, x, n);
    LiveSumWithout(s, live - {x}, y, n);
    forall v {:trigger s[v]} | 1 <= v < |s| ensures s[v] >= 0 { }
    LiveSumPositive(s, live - {x} - {y}, n);
    assert s[x] == Pow2(lim - d[x]) && s[y] == Pow2(lim - d[y]);
  }

  // ---- the tree ----

  /** Node v is a root when the nodes up to t are there. */
  ghost predicate RootAt(f: Forest, t: int, v: int) {
    1 <= v <= t < |f.par| && (f.par[v] < 0 || f.par[v] > t)
  }

  /** The roots when the nodes up to t are there. */
  ghost function Roots(f: Forest, t: int): (r: set<int>)
    ensures forall v {:trigger v in r} {:trigger RootAt(f, t, v)} :: v in r <==> RootAt(f, t, v)
  {
    set v | 1 <= v <= t && RootAt(f, t, v)
  }

  /** Node t has joined the two lightest roots there were. */
  ghost predicate JoinsLightest(f: Forest, t: int) {
    && 1 <= t < |f.par| == |f.left| == |f.right| == |f.wt| && 1 <= f.left[t] < t && 1 <= f.right[t] < t
    && f.wt[t] == f.wt[f.left[t]] + f.wt[f.right[t]] && f.wt[f.left[t]] <= f.wt[f.right[t]]
    && forall v {:trigger RootAt(f, t - 1, v)} :: RootAt(f, t - 1, v) && v != f.left[t] ==> f.wt[f.right[t]] <= f.wt[v]
  }

  /** So have all joined nodes, and no node weighs less than nothing. */
  ghost predicate Greedy(f: Forest, a: nat) {
    && |f.par| == |f.left| == |f.right| == |f.wt| > a
    && (forall t {:trigger JoinsLightest(f, t)} :: a < t <= f.n() ==> JoinsLightest(f, t))
    && (forall v {:trigger f.wt[v]} :: 1 <= v <= f.n() ==> f.wt[v] >= 0)
  }

  /** Joining the two lightest keeps it so. */
  lemma JoinGreedy(f: Forest, a: nat, x: int, y: int)
    requires Grown(f, a) && Greedy(f, a) && Lightest(f, x, y)
    ensures Greedy(Join(f, x, y), a)
  {
    var g, n := Join(f, x, y), f.n();
    forall t {:trigger JoinsLightest(g, t)} | a < t <= g.n() ensures JoinsLightest(g, t) {
      if t <= n { JoinedOld(f, a, x, y, t); } else { JoinedNew(f, a, x, y); }
    }
    forall v {:trigger g.wt[v]} | 1 <= v <= g.n() ensures g.wt[v] >= 0 {
      if v <= n { assert g.wt[v] == f.wt[v]; } else { assert f.wt[x] >= 0 && f.wt[y] >= 0; }
    }
  }

  lemma JoinedOld(f: Forest, a: nat, x: int, y: int, t: int)
    requires Grown(f, a) && Greedy(f, a) && Lightest(f, x, y) && a < t <= f.n()
    ensures JoinsLightest(Join(f, x, y), t)
  {
    var g := Join(f, x, y);
    assert JoinsLightest(f, t);
    assert g.left[t] == f.left[t] && g.right[t] == f.right[t];
    forall v {:trigger RootAt(g, t - 1, v)} | RootAt(g, t - 1, v) && v != g.left[t]
      ensures g.wt[g.right[t]] <= g.wt[v]
    {
      assert RootAt(f, t - 1, v);
    }
  }

  lemma JoinedNew(f: Forest, a: nat, x: int, y: int)
    requires Grown(f, a) && Greedy(f, a) && Lightest(f, x, y)
    ensures JoinsLightest(Join(f, x, y), f.n() + 1)
  {
    var g, t := Join(f, x, y), f.n() + 1;
    forall v {:trigger RootAt(g, t - 1, v)} | RootAt(g, t - 1, v) && v != x ensures g.wt[y] <= g.wt[v] {
      if v != y { assert g.par[v] == f.par[v]; }
      assert v in f.live;
    }
  }

  /** The roots before and after node t was made. */
  lemma RootsStep(f: Forest, a: nat, t: int)
    requires Whole(f, a) && a < t <= f.n()
    ensures var x, y := f.left[t], f.right[t];
      && 1 <= x < t && 1 <= y < t && x != y && x in Roots(f, t - 1) && y in Roots(f, t - 1) && t in Roots(f, t)
      && Roots(f, t) == Roots(f, t - 1) - {x} - {y} + {t}
  {
    var x, y := f.left[t], f.right[t];
    assert JoinedNode(f, t);
    RootAbove(f, a, t);
    forall v ensures RootAt(f, t, v) <==> v == t || (RootAt(f, t - 1, v) && v != x && v != y) {
      if 1 <= v < t { if v != x && v != y { OnlyChildren(f, a, t, v); } }
    }
  }

  /** The depths of all nodes. */
  ghost function Depths(f: Forest): (r: seq<int>)
    requires Parents(f.par)
    ensures |r| == |f.par| && forall v {:trigger r[v]} :: 1 <= v < |r| ==> r[v] == Depth(f.par, v)
  {
    seq(|f.par|, v requires 0 <= v < |f.par| => if v == 0 then 0 else Depth(f.par, v))
  }

  lemma LiveSumAdd(s: seq<int>, live: set<int>, t: int, k: nat)
    requires 1 <= t <= k < |s| && t !in live
    ensures LiveSum(s, live + {t}, k) == LiveSum(s, live, k) + s[t]
  {
    LiveSumWithout(s, live + {t}, t, k);
    assert live + {t} - {t} == live;
  }

  /** Two roots under a common parent cost one bit more each. */
  lemma CostStep(w: seq<int>, d: seq<int>, e: seq<int>, live: set<int>, n: nat, x: int, y: int, t: int)
    requires |w| == |d| == |e| && n < |w| && 1 <= x <= n && 1 <= y <= n && 1 <= t <= n && x in live && y in live
      && x != y
      && t !in live
    requires w[t] == w[x] + w[y] && d[x] == d[y] == e[t] + 1
      && forall v {:trigger v in live} :: v in live ==> 1 <= v <= n && d[v] == e[v]
    ensures Cost(w, d, live, n) == Cost(w, e, live - {x} - {y} + {t}, n) + w[t]
  {
    var p, q, rest := Prods(w, d), Prods(w, e), live - {x} - {y};
    LiveSumWithout(p, live, x, n);
    LiveSumWithout(p, live - {x}, y, n);
    forall v {:trigger p[v]} | 1 <= v <= n && v in rest ensures p[v] == q[v] { assert v in live; }
    LiveSumSame(p, q, rest, rest, n);
    LiveSumAdd(q, rest, t, n);
    Joint(w[x], w[y], e[t]);
  }

  lemma Joint(a: int, b: int, e: int)
    ensures a * (e + 1) + b * (e + 1) == (a + b) * e + (a + b)
  {
  }

  lemma FitsStep(d: seq<int>, e: seq<int>, live: set<int>, lim: nat, n: nat, x: int, y: int, t: int)
    requires |d| == |e| && Fits(d, live, lim, n) && 1 <= t <= n && x in live && y in live && x != y && t !in live
    requires d[x] == d[y] == e[t] + 1 >= 1 && forall v {:trigger v in live} :: v in live ==> d[v] == e[v]
    ensures Fits(e, live - {x} - {y} + {t}, lim, n)
  {
    var p, q, rest := Shares(d, lim), Shares(e, lim), live - {x} - {y};
    LiveSumWithout(p, live, x, n);
    LiveSumWithout(p, live - {x}, y, n);
    assert 0 <= d[x] <= lim && 0 <= d[y] <= lim;
    forall v {:trigger p[v]} | 1 <= v <= n && v in rest ensures p[v] == q[v] { assert v in live; }
    LiveSumSame(p, q, rest, rest, n);
    LiveSumAdd(q, rest, t, n);
    forall v {:trigger v in rest + {t}} | v in rest + {t}
      ensures 1 <= v <= n && 0 <= e[v] <= lim
    {
      if v != t {
        assert v in live;
      }
    }
  }

  /** Whatever lengths the roots are given, their depths in the finished tree cost no more. */
  lemma {:induction false} RootsOptimal(f: Forest, a: nat, t: int, d: seq<int>, lim: nat)
    requires Whole(f, a) && Greedy(f, a) && a <= t <= f.n() && |d| == |f.wt| && Fits(d, Roots(f, t), lim, f.n())
    ensures Cost(f.wt, Depths(f), Roots(f, t), f.n()) <= Cost(f.wt, d, Roots(f, t), f.n())
    decreases f.n() - t
  {
    var n := f.n();
    if t == n {
      LastRoot(f, a, d, lim);
    } else {
      var u := t + 1;
      var live, x, y := Roots(f, t), f.left[u], f.right[u];
      RootsStep(f, a, u);
      assert JoinsLightest(f, u);
      forall v {:trigger v in live} | v in live
        ensures f.wt[v] >= 0 && (v == x || f.wt[y] <= f.wt[v])
      {
        assert RootAt(f, u - 1, v);
      }
      var e := Even(f.wt, d, live, lim, n, x, y);
      var g := e[u := e[x] - 1];
      assert u !in live;
      FitsStep(e, g, live, lim, n, x, y, u);
      CostStep(f.wt, e, g, live, n, x, y, u);
      RootsOptimal(f, a, u, g, lim);
      DepthsStep(f, a, u, live);
    }
  }

  lemma LastRoot(f: Forest, a: nat, d: seq<int>, lim: nat)
    requires Whole(f, a) && Greedy(f, a) && |d| == |f.wt| && Fits(d, Roots(f, f.n()), lim, f.n())
    ensures Cost(f.wt, Depths(f), Roots(f, f.n()), f.n()) <= Cost(f.wt, d, Roots(f, f.n()), f.n())
  {
    var n := f.n();
    forall v ensures v in Roots(f, n) <==> v == n {
      if 1 <= v <= n && v != n { assert v !in f.live; }
      assert n in f.live;
    }
    assert Roots(f, n) == {n};
    assert Depth(f.par, n) == 0;
    OneSum(Prods(f.wt, Depths(f)), n);
    OneSum(Prods(f.wt, d), n);
    assert n in Roots(f, n) && d[n] >= 0 && f.wt[n] >= 0;
    Cheaper(f.wt[n], 0, d[n]);
  }

  lemma OneSum(s: seq<int>, n: nat)
    requires 1 <= n < |s|
    ensures LiveSum(s, {n}, n) == s[n]
  {
    LiveSumWithout(s, {n}, n, n);
    assert {n} - {n} == {};
    EmptySum(s, n);
  }

  lemma {:induction false} EmptySum(s: seq<int>, k: nat)
    requires k < |s|
    ensures LiveSum(s, {}, k) == 0
  {
    if k > 0 { EmptySum(s, k - 1); }
  }

  lemma DepthsStep(f: Forest, a: nat, u: int, live: set<int>)
    requires Whole(f, a) && Greedy(f, a) && a < u <= f.n() && live == Roots(f, u - 1)
    ensures Cost(f.wt, Depths(f), live, f.n()) == Cost(f.wt, Depths(f), Roots(f, u), f.n()) + f.wt[u]
  {
    var x, y, d := f.left[u], f.right[u], Depths(f);
    RootsStep(f, a, u);
    assert JoinedNode(f, u) && JoinsLightest(f, u);
    assert Depth(f.par, x) == 1 + Depth(f.par, u) && Depth(f.par, y) == 1 + Depth(f.par, u);
    forall v {:trigger v in live} | v in live ensures 1 <= v <= f.n() { assert RootAt(f, u - 1, v); }
    CostStep(f.wt, d, d, live, f.n(), x, y, u);
  }

  // ---- lists of lengths ----

  /** The lengths of a code: together they take no more than the code space, in units of 2^-lim. */
  ghost predicate IsCode(m: seq<int>, lim: nat) {
    (forall i {:trigger m[i]} :: 0 <= i < |m| ==> 0 <= m[i] <= lim) && Sum(Shares(m, lim)) <= Pow2(lim)
  }

  /** The bits it takes to write w[i] times symbol i, for all i. */
  function Bill(w: seq<int>, m: seq<int>): int
    requires |w| == |m|
  {
    Sum(Prods(w, m))
  }

  /** No code needs fewer bits. */
  ghost predicate Best(len: seq<int>, w: seq<int>) {
    |len| == |w| && forall m, lim: nat {:trigger IsCode(m, lim)} :: IsCode(m, lim) && |m| == |w| ==>
      Bill(w, len) <= Bill(w, m)
  }

  /** A sum over the nodes 1..a. */
  lemma {:induction false} SumOverLeaves(s: seq<int>, r: seq<int>, live: set<int>, k: nat)
    requires k <= |r| < |s| && (forall i {:trigger r[i]} :: 0 <= i < |r| ==> r[i] == s[i + 1])
    requires forall v {:trigger v in live} :: v in live <==> 1 <= v <= |r|
    ensures LiveSum(s, live, k) == Sum(r[..k])
    decreases k
  {
    if k > 0 {
      SumOverLeaves(s, r, live, k - 1);
      assert r[..k][..k - 1] == r[..k - 1];
      assert k in live && r[k - 1] == s[k];
    }
  }

  lemma {:induction false} SumBeyond(s: seq<int>, live: set<int>, a: nat, k: nat)
    requires a <= k < |s| && forall v {:trigger v in live} :: v in live ==> v <= a
    ensures LiveSum(s, live, k) == LiveSum(s, live, a)
    decreases k
  {
    if a < k { SumBeyond(s, live, a, k - 1); }
  }

  lemma LeafSum(s: seq<int>, r: seq<int>, live: set<int>, n: nat)
    requires |r| <= n < |s| && (forall i {:trigger r[i]} :: 0 <= i < |r| ==> r[i] == s[i + 1])
    requires forall v {:trigger v in live} :: v in live <==> 1 <= v <= |r|
    ensures LiveSum(s, live, n) == Sum(r)
  {
    SumBeyond(s, live, |r|, n);
    SumOverLeaves(s, r, live, |r|);
    assert r[..|r|] == r;
  }

  lemma LeafRoots(f: Forest, a: nat)
    requires Whole(f, a)
    ensures forall v {:trigger v in Roots(f, a)} :: v in Roots(f, a) <==> 1 <= v <= a
  {
    forall v {:trigger v in Roots(f, a)} ensures v in Roots(f, a) <==> 1 <= v <= a {
      if 1 <= v <= a {
        assert v !in f.live;
        assert f.par[v] > a;
        assert RootAt(f, a, v);
      }
    }
  }

  /** The depths of the leaves are the lengths of a best code. */
  lemma TreeBest(f: Forest, a: nat, w: seq<int>, len: seq<int>)
    requires Whole(f, a) && Greedy(f, a) && |len| == |w| == a
    requires forall i {:trigger w[i]} :: 0 <= i < a ==> w[i] == f.wt[i + 1]
    requires forall i {:trigger len[i]} :: 0 <= i < a ==> len[i] == Depth(f.par, i + 1)
    ensures Best(len, w)
  {
    forall m, lim: nat {:trigger IsCode(m, lim)} | IsCode(m, lim) && |m| == |w| ensures Bill(w, len) <= Bill(w, m) {
      var d := seq(|f.wt|, v => if 1 <= v <= a then m[v - 1] else 0);
      LeafRoots(f, a);
      LeafSum(Shares(d, lim), Shares(m, lim), Roots(f, a), f.n());
      RootsOptimal(f, a, a, d, lim);
      LeafSum(Prods(f.wt, d), Prods(w, m), Roots(f, a), f.n());
      LeafSum(Prods(f.wt, Depths(f)), Prods(w, len), Roots(f, a), f.n());
    }
  }

  lemma BillUpdate(w: seq<int>, m: seq<int>, i: int, x: int)
    requires |w| == |m| && 0 <= i < |w|
    ensures Bill(w, m[i := x]) == Bill(w, m) - w[i] * m[i] + w[i] * x
  {
    ProdsUpdate(w, m, i, x);
    SumUpdate(Prods(w, m), i, w[i] * x);
  }

  lemma CodeSwap(m: seq<int>, lim: nat, i: int, j: int)
    requires IsCode(m, lim) && 0 <= i < |m| && 0 <= j < |m|
    ensures IsCode(m[i := m[j]][j := m[i]], lim)
  {
    var m1 := m[i := m[j]];
    SharesUpdate(m, lim, i, m[j]);
    SharesUpdate(m1, lim, j, m[i]);
    SumUpdate(Shares(m, lim), i, Pow2(lim - m[j]));
    SumUpdate(Shares(m1, lim), j, Pow2(lim - m[i]));
  }

  /** In a best code what is heavier is not longer. */
  lemma HeavierShorter(len: seq<int>, w: seq<int>, lim: nat, i: int, j: int)
    requires Best(len, w) && IsCode(len, lim) && 0 <= i < |w| && 0 <= j < |w| && w[i] > w[j]
    ensures len[i] <= len[j]
  {
    var m1 := len[i := len[j]];
    var m := m1[j := len[i]];
    CodeSwap(len, lim, i, j);
    BillUpdate(w, len, i, len[j]);
    BillUpdate(w, m1, j, len[i]);
    assert IsCode(m, lim);
    if len[i] > len[j] { Grows(w[j], w[i], len[i] - len[j]); }
  }
}
