/** Step 2 of mainSort: scanning a sorted big bucket ss from both ends puts the rotations that
    start one byte earlier, the small buckets [t, ss], into their final order. */
module CopyPhase {
  import opened Permutations
  import opened Rotations
  import opened MainCompare

  function Succ(i: int, n: int): int { if i + 1 == n then 0 else i + 1 }
  function Pred(i: int, n: int): int { if i == 0 then n - 1 else i - 1 }

  /** What does not change during the scan. Positions are grouped by the first two bytes of the
      rotations that belong there: first[p] and second[p]; start[t]..stop[t]-1 is small bucket [t, ss]. */
  datatype Ctx = Ctx(b: Block, rank: seq<int>, first: seq<int>, second: seq<int>,
                     ss: int, done: seq<bool>, start: seq<int>, stop: seq<int>)

  ghost predicate At2(c: Ctx, v: int, p: int)
    requires |c.first| == |c.second| == |c.b| && 0 <= p < |c.b|
  {
    0 <= v < |c.b| && c.b[v] == c.first[p] && c.b[Succ(v, |c.b|)] == c.second[p]
  }

  /** The rotations that belong in small bucket [t, ss]. */
  ghost function Members(c: Ctx, t: int): (r: set<int>)
    ensures forall v :: v in r <==> 0 <= v < |c.b| && c.b[v] == t && c.b[Succ(v, |c.b|)] == c.ss
  {
    set v: int | 0 <= v < |c.b| && c.b[v] == t && c.b[Succ(v, |c.b|)] == c.ss
  }

  ghost predicate Context(c: Ctx) {
    var n := |c.b|;
    && n > 1 && Ranks(c.rank, c.b) && |c.first| == |c.second| == n
    && 0 <= c.ss < 256 && |c.done| == |c.start| == |c.stop| == 256 && !c.done[c.ss]
    && (forall p {:trigger c.first[p]} {:trigger c.second[p]} ::
         0 <= p < n ==> 0 <= c.first[p] < 256 && 0 <= c.second[p] < 256)
    && (forall p, q {:trigger c.first[p], c.first[q]} :: 0 <= p < q < n ==>
          c.first[p] < c.first[q] || (c.first[p] == c.first[q] && c.second[p] <= c.second[q]))
    && (forall t {:trigger c.start[t]} {:trigger c.stop[t]} :: 0 <= t < 256 ==> 0 <= c.start[t] <= c.stop[t] <= n)
    && (forall t {:trigger Members(c, t)} :: 0 <= t < 256 ==> |Members(c, t)| == c.stop[t] - c.start[t])
    && (forall t, p {:trigger c.start[t], c.first[p]} :: 0 <= t < 256 && 0 <= p < n ==>
          (c.start[t] <= p < c.stop[t] <==> c.first[p] == t && c.second[p] == c.ss))
  }

  /** The scan: s is ptr; src[p] is the position whose scan filled p, or -1; xl and xr bound the
      positions not scanned yet. */
  datatype Copy = Copy(s: seq<int>, src: seq<int>, cs: seq<int>, ce: seq<int>, xl: int, xr: int)

  /** Position x of the big bucket holds its final rotation. */
  ghost predicate Good(c: Ctx, k: Copy, x: int)
    requires |c.first| == |c.second| == |k.src|
  {
    0 <= x < |c.first| && c.first[x] == c.ss && (c.second[x] != c.ss || k.src[x] >= 0)
  }

  ghost predicate Scanned(c: Ctx, k: Copy, x: int)
    requires |c.first| == |c.second| == |k.src|
  {
    0 <= x < |c.first| && c.first[x] == c.ss && (x < k.xl || k.xr < x)
  }

  ghost predicate Shape(c: Ctx, k: Copy) {
    && Context(c) && |k.s| == |k.src| == |c.b| && |k.cs| == |k.ce| == 256
    && (forall p {:trigger k.s[p]} :: 0 <= p < |c.b| ==> 0 <= k.s[p] < |c.b|)
    && (forall t {:trigger k.cs[t]} {:trigger k.ce[t]} ::
         0 <= t < 256 ==> c.start[t] <= k.cs[t] <= k.ce[t] + 1 <= c.stop[t])
  }

  /** The filled positions are the two ends of the small buckets [t, ss] that are still open. */
  ghost predicate Ends(c: Ctx, k: Copy)
    requires Shape(c, k)
  {
    forall p {:trigger k.src[p]} :: 0 <= p < |c.b| ==>
      (k.src[p] >= 0 <==> c.second[p] == c.ss && !c.done[c.first[p]] && (p < k.cs[c.first[p]] || k.ce[c.first[p]] < p))
  }

  /** A filled position holds the rotation one byte before the one whose scan filled it; the left
      end is filled from the left scan and the right end from the right scan. */
  ghost predicate Sources(c: Ctx, k: Copy)
    requires Shape(c, k)
  {
    forall p {:trigger k.src[p]} :: 0 <= p < |c.b| && k.src[p] >= 0 ==> Source(c, k, p)
  }

  ghost predicate Source(c: Ctx, k: Copy, p: int)
    requires Shape(c, k) && 0 <= p < |c.b|
  {
    && Scanned(c, k, k.src[p]) && Good(c, k, k.src[p])
    && c.b[k.s[p]] == c.first[p] && k.s[k.src[p]] == Succ(k.s[p], |c.b|)
    && (p < k.cs[c.first[p]] ==> k.src[p] < k.xl) && (k.ce[c.first[p]] < p ==> k.xr < k.src[p])
  }

  ghost predicate Rising(c: Ctx, k: Copy)
    requires Shape(c, k)
  {
    forall p, q {:trigger k.src[p], k.src[q]} ::
      0 <= p < q < |c.b| && k.src[p] >= 0 && k.src[q] >= 0 && c.first[p] == c.first[q] ==>
      k.src[p] < k.src[q]
  }

  /** Whatever has been scanned has had its predecessor placed, unless that bucket was done before. */
  ghost predicate Placed(c: Ctx, k: Copy)
    requires Shape(c, k)
  {
    forall x {:trigger k.s[x]} :: Scanned(c, k, x) && !c.done[c.b[Pred(k.s[x], |c.b|)]] ==> Filler(k, x)
  }

  ghost predicate Filler(k: Copy, x: int) {
    exists p :: 0 <= p < |k.src| && k.src[p] == x
  }

  /** The good positions hold different rotations, in order, each in its own small bucket. */
  ghost predicate GoodOrder(c: Ctx, k: Copy)
    requires Shape(c, k)
  {
    && (forall x {:trigger k.s[x]} :: Good(c, k, x) ==> At2(c, k.s[x], x))
    && (forall x, y {:trigger k.s[x], k.s[y]} :: x < y && Good(c, k, x) && Good(c, k, y) ==>
          k.s[x] != k.s[y] && c.rank[k.s[x]] <= c.rank[k.s[y]])
    && (forall x :: Scanned(c, k, x) ==> Good(c, k, x))
  }

  ghost predicate Copying(c: Ctx, k: Copy) {
    && Shape(c, k) && Ends(c, k) && Sources(c, k) && Rising(c, k) && Placed(c, k) && GoodOrder(c, k)
  }

  // ---- order facts ----

  lemma SuccCmp(b: Block, v: nat, w: nat, k: nat)
    requires v < |b| && w < |b| && |b| > 1
    ensures Cmp(b, Succ(v, |b|), Succ(w, |b|), k) == Cmp(b, v + 1, w + 1, k)
    ensures b[Succ(v, |b|)] == At(b, v + 1)
  {
    WrapOnce(v + 1, |b|);
    WrapOnce(w + 1, |b|);
    CmpWrapBoth(b, v + 1, w + 1, k);
  }

  /** Putting the same byte in front of two rotations keeps their order. */
  lemma PredOrder(c: Ctx, v: int, w: int)
    requires Context(c) && 0 <= v < |c.b| && 0 <= w < |c.b| && c.b[v] == c.b[w]
    requires c.rank[Succ(v, |c.b|)] <= c.rank[Succ(w, |c.b|)]
    ensures c.rank[v] <= c.rank[w]
  {
    var b, n := c.b, |c.b|;
    SuccCmp(b, v, w, n);
    assert Cmp(b, Succ(v, n), Succ(w, n), n) <= 0;
    CmpSplit(b, v + 1, w + 1, n - 1, 1);
    assert Cmp(b, v, w, n) <= 0;
  }

  /** The first two bytes of rotations in different small buckets decide their order. */
  lemma BucketOrder(c: Ctx, v: int, p: int, w: int, q: int)
    requires Context(c) && 0 <= p < |c.b| && 0 <= q < |c.b| && At2(c, v, p) && At2(c, w, q)
    requires c.first[p] < c.first[q] || (c.first[p] == c.first[q] && c.second[p] < c.second[q])
    ensures c.rank[v] <= c.rank[w] && v != w
  {
    var b, n := c.b, |c.b|;
    SuccCmp(b, v, w, 1);
    SuccCmp(b, w, v, 1);
    assert Cmp(b, v, w, 2) < 0;
    CmpSplit(b, v, w, 2, n - 2);
    assert Cmp(b, v, w, n) <= 0;
  }

  lemma PredSucc(i: int, n: int)
    requires 0 <= i < n
    ensures 0 <= Pred(i, n) < n && Succ(Pred(i, n), n) == i && 0 <= Succ(i, n) < n && Pred(Succ(i, n), n) == i
  {
  }

  // ---- room for one more ----

  /** Filled positions of one small bucket hold different rotations, in order. */
  lemma FilledApart(c: Ctx, k: Copy, p: int, q: int)
    requires Copying(c, k) && 0 <= p < q < |c.b| && k.src[p] >= 0 && k.src[q] >= 0 && c.first[p] == c.first[q]
    ensures k.s[p] != k.s[q] && c.rank[k.s[p]] <= c.rank[k.s[q]]
  {
    var n := |c.b|;
    var x, y := k.src[p], k.src[q];
    assert x < y && Good(c, k, x) && Good(c, k, y);
    assert k.s[x] == Succ(k.s[p], n) && k.s[y] == Succ(k.s[q], n);
    PredOrder(c, k.s[p], k.s[q]);
  }

  /** What a filled position holds belongs there. */
  lemma FilledIn(c: Ctx, k: Copy, p: int)
    requires Copying(c, k) && 0 <= p < |c.b| && k.src[p] >= 0
    ensures At2(c, k.s[p], p)
  {
    var x := k.src[p];
    assert Good(c, k, x) && At2(c, k.s[x], x);
  }

  lemma FilledMember(c: Ctx, k: Copy, t: int, p: int)
    requires Copying(c, k) && 0 <= t < 256 && !c.done[t] && c.start[t] <= p < c.stop[t]
    requires p < k.cs[t] || k.ce[t] < p
    ensures k.src[p] >= 0 && c.first[p] == t && k.s[p] in Members(c, t)
  {
    assert c.first[p] == t && c.second[p] == c.ss;
    FilledIn(c, k, p);
  }

  /** hi - lo different members of a set of that size are all of it. */
  lemma RangeHolds(s: seq<int>, lo: int, hi: int, m: set<int>, v: int) returns (p: int)
    requires 0 <= lo <= hi <= |s| && |m| == hi - lo && v in m
    requires forall p {:trigger s[p]} :: lo <= p < hi ==> s[p] in m
    requires forall p, q {:trigger s[p], s[q]} :: lo <= p < q < hi ==> s[p] != s[q]
    ensures lo <= p < hi && s[p] == v
  {
    var vs := s[lo..hi];
    assert forall i {:trigger vs[i]} :: 0 <= i < |vs| ==> vs[i] == s[lo + i];
    DistinctCardinality(vs);
    forall x | x in Elems(vs) ensures x in m {
      var i :| 0 <= i < |vs| && vs[i] == x;
    }
    SubsetCardinality(Elems(vs), m);
    assert v in vs;
    var i :| 0 <= i < |vs| && vs[i] == v;
    p := lo + i;
  }

  lemma FilledPair(c: Ctx, k: Copy, t: int, p: int, q: int)
    requires Copying(c, k) && 0 <= t < 256 && !c.done[t] && c.start[t] <= p < q < c.stop[t]
    requires (p < k.cs[t] || k.ce[t] < p) && (q < k.cs[t] || k.ce[t] < q)
    ensures k.s[p] != k.s[q] && c.rank[k.s[p]] <= c.rank[k.s[q]]
  {
    FilledMember(c, k, t, p);
    FilledMember(c, k, t, q);
    FilledApart(c, k, p, q);
  }

  /** If small bucket [t, ss] is full then it holds all its members. */
  lemma FullHolds(c: Ctx, k: Copy, t: int, v: int) returns (p: int)
    requires Copying(c, k) && 0 <= t < 256 && !c.done[t] && k.cs[t] == k.ce[t] + 1 && v in Members(c, t)
    ensures c.start[t] <= p < c.stop[t] && k.src[p] >= 0 && k.s[p] == v
  {
    var lo, hi := c.start[t], c.stop[t];
    forall p {:trigger k.s[p]} | lo <= p < hi ensures k.s[p] in Members(c, t) { FilledMember(c, k, t, p); }
    forall p, q {:trigger k.s[p], k.s[q]} | lo <= p < q < hi ensures k.s[p] != k.s[q] { FilledPair(c, k, t, p, q); }
    p := RangeHolds(k.s, lo, hi, Members(c, t), v);
    FilledMember(c, k, t, p);
  }

  lemma Room(c: Ctx, k: Copy, x: int, t: int)
    requires Copying(c, k) && Good(c, k, x) && !Scanned(c, k, x)
    requires t == c.b[Pred(k.s[x], |c.b|)] && !c.done[t]
    ensures k.cs[t] <= k.ce[t]
  {
    var n, v := |c.b|, Pred(k.s[x], |c.b|);
    PredSucc(k.s[x], n);
    assert At2(c, k.s[x], x);
    if k.cs[t] == k.ce[t] + 1 {
      var p := FullHolds(c, k, t, v);
      assert false;
    }
  }

  // ---- one scanned position ----

  /** Scanning position x, at the left or the right end of what is left, gives l. */
  function Scan(c: Ctx, k: Copy, left: bool): (l: Copy)
    requires Shape(c, k) && 0 <= (if left then k.xl else k.xr) < |c.b|
  {
    var x := if left then k.xl else k.xr;
    var v := Pred(k.s[x], |c.b|);
    var t := c.b[v];
    var p := if left then k.cs[t] else k.ce[t];
    var moved := if left then k.(xl := x + 1) else k.(xr := x - 1);
    if c.done[t] || !(0 <= p < |c.b|) then moved
    else moved.(s := k.s[p := v], src := k.src[p := x],
                cs := if left then k.cs[t := p + 1] else k.cs,
                ce := if left then k.ce else k.ce[t := p - 1])
  }

  /** The scan may look at position x: it is good, not looked at yet, and on the left nothing has
      been filled from the right. */
  ghost predicate Ready(c: Ctx, k: Copy, left: bool, x: int) {
    && Copying(c, k) && x == (if left then k.xl else k.xr) && k.xl <= x <= k.xr && Good(c, k, x)
    && (left ==> forall y {:trigger c.first[y]} :: 0 <= y < |c.b| && c.first[y] == c.ss ==> y <= k.xr)
  }

  /** The free position that takes the predecessor of the scanned rotation. */
  lemma FreePosition(c: Ctx, k: Copy, left: bool, x: int, t: int, p: int)
    requires Ready(c, k, left, x) && t == c.b[Pred(k.s[x], |c.b|)] && !c.done[t]
    requires p == if left then k.cs[t] else k.ce[t]
    ensures k.cs[t] <= k.ce[t] && 0 <= p < |c.b| && c.first[p] == t && c.second[p] == c.ss
    ensures k.src[p] < 0 && !Good(c, k, p) && p != x
  {
    Room(c, k, x, t);
    assert c.start[t] <= p < c.stop[t];
    assert c.first[p] == t;
  }

  lemma ScanEnds(c: Ctx, k: Copy, left: bool, x: int)
    requires Ready(c, k, left, x)
    ensures Shape(c, Scan(c, k, left)) && Ends(c, Scan(c, k, left))
  {
    var v, l := Pred(k.s[x], |c.b|), Scan(c, k, left);
    var t := c.b[v];
    if !c.done[t] {
      var p := if left then k.cs[t] else k.ce[t];
      FreePosition(c, k, left, x, t, p);
    }
  }

  /** What was good stays good and keeps its rotation; what was scanned stays scanned. */
  lemma ScanKeeps(c: Ctx, k: Copy, left: bool, x: int, y: int)
    requires Ready(c, k, left, x) && 0 <= y < |c.b|
    ensures var l := Scan(c, k, left);
            |l.src| == |c.b| && |l.s| == |c.b| && (Scanned(c, l, y) <==> Scanned(c, k, y) || y == x)
    ensures var l := Scan(c, k, left);
            Good(c, k, y) ==> Good(c, l, y) && l.s[y] == k.s[y]
    ensures var l := Scan(c, k, left); k.src[y] >= 0 ==> l.src[y] == k.src[y] && l.s[y] == k.s[y]
  {
    var t := c.b[Pred(k.s[x], |c.b|)];
    if !c.done[t] {
      FreePosition(c, k, left, x, t, if left then k.cs[t] else k.ce[t]);
    }
  }

  lemma ScanSource(c: Ctx, k: Copy, left: bool, x: int, q: int)
    requires Ready(c, k, left, x) && Shape(c, Scan(c, k, left)) && 0 <= q < |c.b| && Scan(c, k, left).src[q] >= 0
    ensures Source(c, Scan(c, k, left), q)
  {
    if k.src[q] >= 0 { OldSource(c, k, left, x, q); } else { NewSource(c, k, left, x, q); }
  }

  lemma OldSource(c: Ctx, k: Copy, left: bool, x: int, q: int)
    requires Ready(c, k, left, x) && Shape(c, Scan(c, k, left)) && 0 <= q < |c.b| && k.src[q] >= 0
    ensures Source(c, Scan(c, k, left), q)
  {
    var t := c.b[Pred(k.s[x], |c.b|)];
    assert Source(c, k, q);
    ScanKeeps(c, k, left, x, q);
    ScanKeeps(c, k, left, x, k.src[q]);
    if !c.done[t] { FreePosition(c, k, left, x, t, if left then k.cs[t] else k.ce[t]); }
  }

  lemma NewSource(c: Ctx, k: Copy, left: bool, x: int, q: int)
    requires Ready(c, k, left, x) && Shape(c, Scan(c, k, left)) && 0 <= q < |c.b| && Scan(c, k, left).src[q] >= 0
      && k.src[q] < 0
    ensures Source(c, Scan(c, k, left), q)
  {
    var t := c.b[Pred(k.s[x], |c.b|)];
    PredSucc(k.s[x], |c.b|);
    ScanKeeps(c, k, left, x, x);
    if !c.done[t] { FreePosition(c, k, left, x, t, if left then k.cs[t] else k.ce[t]); }
  }

  lemma ScanSources(c: Ctx, k: Copy, left: bool, x: int)
    requires Ready(c, k, left, x) && Shape(c, Scan(c, k, left))
    ensures Sources(c, Scan(c, k, left))
  {
    var l := Scan(c, k, left);
    forall q {:trigger l.src[q]} | 0 <= q < |c.b| && l.src[q] >= 0 ensures Source(c, l, q) {
      ScanSource(c, k, left, x, q);
    }
  }

  /** The position filled by this scan, when there is one. */
  ghost predicate Fills(c: Ctx, k: Copy, left: bool, x: int, t: int, p: int) {
    && Shape(c, k) && 0 <= x < |c.b| && t == c.b[Pred(k.s[x], |c.b|)]
      && !c.done[t] && p == if left then k.cs[t] else k.ce[t]
  }

  /** Compared with any position filled before, the new one has its source on the same side. */
  lemma FillsBetween(c: Ctx, k: Copy, left: bool, x: int, t: int, p: int, q: int)
    requires Ready(c, k, left, x) && Fills(c, k, left, x, t, p)
    requires 0 <= q < |c.b| && k.src[q] >= 0 && c.first[q] == t
    ensures p != q && (q < p ==> k.src[q] < x) && (p < q ==> x < k.src[q])
  {
    FreePosition(c, k, left, x, t, p);
    assert Source(c, k, q);
    assert c.second[q] == c.ss && (q < k.cs[t] || k.ce[t] < q);
  }

  lemma ScanRising(c: Ctx, k: Copy, left: bool, x: int)
    requires Ready(c, k, left, x) && Shape(c, Scan(c, k, left))
    ensures Rising(c, Scan(c, k, left))
  {
    var t, l := c.b[Pred(k.s[x], |c.b|)], Scan(c, k, left);
    if !c.done[t] {
      var p := if left then k.cs[t] else k.ce[t];
      FreePosition(c, k, left, x, t, p);
      forall q, r {:trigger l.src[q], l.src[r]}
        | 0 <= q < r < |c.b| && l.src[q] >= 0 && l.src[r] >= 0 && c.first[q] == c.first[r]
        ensures l.src[q] < l.src[r]
      {
        if q == p { FillsBetween(c, k, left, x, t, p, r); } else if r == p { FillsBetween(c, k, left, x, t, p, q); }
      }
    }
  }

  lemma ScanPlaced(c: Ctx, k: Copy, left: bool, x: int)
    requires Ready(c, k, left, x) && Shape(c, Scan(c, k, left))
    ensures Placed(c, Scan(c, k, left))
  {
    var t, l := c.b[Pred(k.s[x], |c.b|)], Scan(c, k, left);
    forall y {:trigger l.s[y]} | Scanned(c, l, y) && !c.done[c.b[Pred(l.s[y], |c.b|)]] ensures Filler(l, y) {
      ScanKeeps(c, k, left, x, y);
      if y == x {
        FreePosition(c, k, left, x, t, if left then k.cs[t] else k.ce[t]);
        assert l.src[if left then k.cs[t] else k.ce[t]] == y;
      } else {
        assert Scanned(c, k, y) && Good(c, k, y) && l.s[y] == k.s[y];
        assert Filler(k, y);
        var q :| 0 <= q < |k.src| && k.src[q] == y;
        ScanKeeps(c, k, left, x, q);
        assert l.src[q] == y;
      }
    }
  }

  /** A newly filled position of [ss, ss] is in order with every good position. */
  lemma NewGood(c: Ctx, k: Copy, left: bool, x: int, p: int, y: int)
    requires Ready(c, k, left, x) && Fills(c, k, left, x, c.ss, p) && Good(c, k, y)
    ensures p != y && 0 <= p < |c.b|
    ensures var v := Pred(k.s[x], |c.b|);
            v != k.s[y] && (y < p ==> c.rank[k.s[y]] <= c.rank[v]) && (p < y ==> c.rank[v] <= c.rank[k.s[y]])
    ensures At2(c, Pred(k.s[x], |c.b|), p)
  {
    var v, n := Pred(k.s[x], |c.b|), |c.b|;
    PredSucc(k.s[x], n);
    FreePosition(c, k, left, x, c.ss, p);
    assert At2(c, k.s[x], x) && At2(c, k.s[y], y);
    if c.second[y] != c.ss {
      if y < p { BucketOrder(c, k.s[y], y, v, p); } else { BucketOrder(c, v, p, k.s[y], y); }
    } else {
      FillsBetween(c, k, left, x, c.ss, p, y);
      assert Source(c, k, y);
      NewGoodFilled(c, k, left, x, p, y);
    }
  }

  lemma NewGoodFilled(c: Ctx, k: Copy, left: bool, x: int, p: int, y: int)
    requires Ready(c, k, left, x) && 0 <= y < |c.b| && k.src[y] >= 0 && Source(c, k, y) && c.first[y] == c.ss
    requires c.b[Pred(k.s[x], |c.b|)] == c.ss && k.src[y] != x
    ensures var v := Pred(k.s[x], |c.b|);
            v != k.s[y] && (k.src[y] < x ==> c.rank[k.s[y]] <= c.rank[v])
              && (x < k.src[y] ==> c.rank[v] <= c.rank[k.s[y]])
  {
    var v, n, z := Pred(k.s[x], |c.b|), |c.b|, k.src[y];
    PredSucc(k.s[x], n);
    if z < x {
      assert k.s[z] != k.s[x] && c.rank[k.s[z]] <= c.rank[k.s[x]];
      PredOrder(c, k.s[y], v);
    } else {
      assert k.s[x] != k.s[z] && c.rank[k.s[x]] <= c.rank[k.s[z]];
      PredOrder(c, v, k.s[y]);
    }
  }

  /** A good position after the scan was good before it, or is the one just filled. */
  lemma GoodAfter(c: Ctx, k: Copy, left: bool, x: int, y: int)
    requires Ready(c, k, left, x) && Shape(c, Scan(c, k, left)) && Good(c, Scan(c, k, left), y)
    ensures var l, p := Scan(c, k, left), if left then k.cs[c.ss] else k.ce[c.ss];
            || (Good(c, k, y) && l.s[y] == k.s[y])
            || (y == p && Fills(c, k, left, x, c.ss, p) && l.s[y] == Pred(k.s[x], |c.b|))
  {
    ScanKeeps(c, k, left, x, y);
    var t := c.b[Pred(k.s[x], |c.b|)];
    if !c.done[t] {
      FreePosition(c, k, left, x, t, if left then k.cs[t] else k.ce[t]);
    }
  }

  lemma ScanGoodPair(c: Ctx, k: Copy, left: bool, x: int, y: int, z: int)
    requires Ready(c, k, left, x) && Shape(c, Scan(c, k, left)) && y < z
    requires Good(c, Scan(c, k, left), y) && Good(c, Scan(c, k, left), z)
    ensures var l := Scan(c, k, left); l.s[y] != l.s[z] && c.rank[l.s[y]] <= c.rank[l.s[z]]
  {
    var p := if left then k.cs[c.ss] else k.ce[c.ss];
    GoodAfter(c, k, left, x, y);
    GoodAfter(c, k, left, x, z);
    if Good(c, k, y) && Good(c, k, z) {
      ScanKeeps(c, k, left, x, y);
      ScanKeeps(c, k, left, x, z);
      assert k.s[y] != k.s[z] && c.rank[k.s[y]] <= c.rank[k.s[z]];
    } else if Good(c, k, y) {
      NewGood(c, k, left, x, p, y);
    } else {
      NewGood(c, k, left, x, p, z);
    }
  }

  lemma ScanGood(c: Ctx, k: Copy, left: bool, x: int)
    requires Ready(c, k, left, x) && Shape(c, Scan(c, k, left))
    ensures GoodOrder(c, Scan(c, k, left))
  {
    var l := Scan(c, k, left);
    forall y {:trigger l.s[y]} | Good(c, l, y) ensures At2(c, l.s[y], y) {
      GoodAfter(c, k, left, x, y);
      if Good(c, k, y) {
        ScanKeeps(c, k, left, x, y);
        assert At2(c, k.s[y], y);
      } else {
        NewGood(c, k, left, x, y, x);
      }
    }
    forall y, z {:trigger l.s[y], l.s[z]} | y < z && Good(c, l, y) && Good(c, l, z)
      ensures l.s[y] != l.s[z] && c.rank[l.s[y]] <= c.rank[l.s[z]]
    {
      ScanGoodPair(c, k, left, x, y, z);
    }
    forall y | Scanned(c, l, y) ensures Good(c, l, y) {
      ScanKeeps(c, k, left, x, y);
    }
  }

  /** Every scanned position keeps the whole invariant. */
  lemma ScanStep(c: Ctx, k: Copy, left: bool, x: int)
    requires Ready(c, k, left, x)
    ensures Copying(c, Scan(c, k, left))
  {
    ScanEnds(c, k, left, x);
    ScanSources(c, k, left, x);
    ScanRising(c, k, left, x);
    ScanPlaced(c, k, left, x);
    ScanGood(c, k, left, x);
  }

  // ---- where the scan starts and ends ----

  /** ptr before the scan: every rotation is in its small bucket, and the small buckets [ss, j] for
      j != ss are sorted. */
  ghost predicate Prepared(c: Ctx, s: seq<int>) {
    && Context(c) && |s| == |c.b| && IsPerm(s)
    && (forall p {:trigger s[p]} :: 0 <= p < |s| ==> At2(c, s[p], p))
    && (forall p, q {:trigger s[p], s[q]} ::
          (0 <= p < q < |s| && c.first[p] == c.first[q] == c.ss && c.second[p] == c.second[q] != c.ss) ==>
          c.rank[s[p]] <= c.rank[s[q]])
  }

  ghost function Beginning(c: Ctx, s: seq<int>, lo: int, hi: int): Copy
    requires Context(c)
  {
    Copy(s, seq(|s|, _ => -1), c.start, seq(256, t requires 0 <= t < 256 => c.stop[t] - 1), lo, hi - 1)
  }

  /** lo..hi-1 is big bucket ss. */
  ghost predicate BigBucket(c: Ctx, lo: int, hi: int) {
    && 0 <= lo <= hi <= |c.first|
    && forall p {:trigger c.first[p]} :: 0 <= p < |c.first| ==> (c.first[p] == c.ss <==> lo <= p < hi)
  }

  lemma ScanBegins(c: Ctx, s: seq<int>, lo: int, hi: int)
    requires Prepared(c, s) && BigBucket(c, lo, hi)
    ensures Copying(c, Beginning(c, s, lo, hi))
  {
    var k := Beginning(c, s, lo, hi);
    forall x, y {:trigger k.s[x], k.s[y]} | x < y && Good(c, k, x) && Good(c, k, y)
      ensures k.s[x] != k.s[y] && c.rank[k.s[x]] <= c.rank[k.s[y]]
    {
      assert At2(c, s[x], x) && At2(c, s[y], y);
      if c.second[x] != c.second[y] { BucketOrder(c, s[x], x, s[y], y); }
    }
  }

  /** Positions that were not filled still hold what they held. */
  ghost predicate Kept(k: Copy, s0: seq<int>) {
    |k.s| == |k.src| == |s0| && forall p {:trigger k.s[p]} :: 0 <= p < |s0| && k.src[p] < 0 ==> k.s[p] == s0[p]
  }

  /** Both scans have met the ends of [ss, ss] they were filling. */
  ghost predicate Finished(c: Ctx, k: Copy, s0: seq<int>) {
    Copying(c, k) && Prepared(c, s0) && Kept(k, s0) && k.xl == k.cs[c.ss] && k.xr == k.ce[c.ss]
  }

  /** A scanned rotation's predecessor is in place. */
  lemma PredPlaced(c: Ctx, k: Copy, x: int, v: int) returns (p: int)
    requires Copying(c, k) && Scanned(c, k, x) && 0 <= v < |c.b| && k.s[x] == Succ(v, |c.b|) && !c.done[c.b[v]]
    ensures 0 <= p < |c.b| && k.src[p] >= 0 && k.s[p] == v && c.first[p] == c.b[v] && c.second[p] == c.ss
  {
    PredSucc(v, |c.b|);
    assert k.s[x] == k.s[x] && Filler(k, x);
    p :| 0 <= p < |k.src| && k.src[p] == x;
    assert Source(c, k, p);
    PredSucc(k.s[p], |c.b|);
  }

  /** A rotation of [ss, y] with y != ss was scanned where it stood. */
  lemma OuterScanned(c: Ctx, k: Copy, s0: seq<int>, w: int) returns (x: int)
    requires Finished(c, k, s0) && 0 <= w < |c.b| && c.b[w] == c.ss && c.b[Succ(w, |c.b|)] != c.ss
    ensures Scanned(c, k, x) && k.s[x] == w
  {
    x := PermHits(s0, w);
    assert At2(c, s0[x], x);
    assert k.src[x] < 0 && k.s[x] == s0[x];
    assert !(c.start[c.ss] <= x < c.stop[c.ss]);
  }

  /** A rotation that was put into [ss, ss] was scanned there. */
  lemma InnerScanned(c: Ctx, k: Copy, s0: seq<int>, p: int)
    requires Finished(c, k, s0) && 0 <= p < |c.b| && k.src[p] >= 0 && c.first[p] == c.ss
    ensures Scanned(c, k, p)
  {
  }

  /** Nothing was put where rotation v of [ss, ss] belongs. */
  ghost predicate Missing(c: Ctx, k: Copy, v: int)
    requires |k.src| == |k.s|
  {
    v in Members(c, c.ss) && forall p {:trigger k.s[p]} :: 0 <= p < |k.s| && k.src[p] >= 0 ==> k.s[p] != v
  }

  /** If a rotation is missing then so is the next one. */
  lemma MissingNext(c: Ctx, k: Copy, s0: seq<int>, v: int)
    requires Finished(c, k, s0) && Missing(c, k, v)
    ensures Missing(c, k, Succ(v, |c.b|))
  {
    var n := |c.b|;
    var w := Succ(v, n);
    if c.b[Succ(w, n)] != c.ss {
      var x := OuterScanned(c, k, s0, w);
      var p := PredPlaced(c, k, x, v);
      assert false;
    }
    forall q {:trigger k.s[q]} | 0 <= q < n && k.src[q] >= 0 ensures k.s[q] != w {
      if k.s[q] == w {
        FilledIn(c, k, q);
        InnerScanned(c, k, s0, q);
        var p := PredPlaced(c, k, q, v);
        assert false;
      }
    }
  }

  lemma {:induction false} MissingAll(c: Ctx, k: Copy, s0: seq<int>, v: int, m: nat)
    requires Finished(c, k, s0) && Missing(c, k, v)
    ensures Missing(c, k, Wrap(v + m, |c.b|))
    decreases m
  {
    var n := |c.b|;
    if m > 0 {
      MissingAll(c, k, s0, v, m - 1);
      MissingNext(c, k, s0, Wrap(v + m - 1, n));
      WrapAdd(v + m - 1, 1, n);
      WrapOnce(Wrap(v + m - 1, n) + 1, n);
    }
  }

  ghost predicate OneByte(b: Block, ss: int) {
    forall i {:trigger b[i]} :: 0 <= i < |b| ==> b[i] == ss
  }

  /** A rotation is missing only when the block is one byte over and over. */
  lemma MissingMeansOneByte(c: Ctx, k: Copy, s0: seq<int>, v: int)
    requires Finished(c, k, s0) && Missing(c, k, v)
    ensures OneByte(c.b, c.ss)
  {
    var n := |c.b|;
    forall i {:trigger c.b[i]} | 0 <= i < n ensures c.b[i] == c.ss {
      var m := if v <= i then i - v else i - v + n;
      MissingAll(c, k, s0, v, m);
      WrapOnce(v + m, n);
    }
  }

  lemma ElemsBound(s: seq<int>)
    ensures |Elems(s)| <= |s|
  {
    if s != [] {
      var m := |s| - 1;
      ElemsBound(s[..m]);
      assert Elems(s) == Elems(s[..m]) + {s[m]};
    }
  }

  lemma OneOver(a: set<int>, b: set<int>) returns (v: int)
    requires |a| > |b|
    ensures v in a && v !in b
  {
    if forall x :: x in a ==> x in b { SubsetCardinality(a, b); }
    v :| v in a && v !in b;
  }

  /** A small bucket with a gap misses one of its members. */
  lemma GapMisses(c: Ctx, k: Copy, t: int) returns (v: int)
    requires Copying(c, k) && 0 <= t < 256 && !c.done[t] && k.cs[t] <= k.ce[t]
    ensures v in Members(c, t)
    ensures forall p {:trigger k.s[p]} :: 0 <= p < |c.b| && k.src[p] >= 0 && c.first[p] == t ==> k.s[p] != v
  {
    var left, right := k.s[c.start[t]..k.cs[t]], k.s[k.ce[t] + 1..c.stop[t]];
    var vs := left + right;
    ElemsBound(vs);
    v := OneOver(Members(c, t), Elems(vs));
    forall p {:trigger k.s[p]} | 0 <= p < |c.b| && k.src[p] >= 0 && c.first[p] == t ensures k.s[p] != v {
      assert c.start[t] <= p < c.stop[t] && (p < k.cs[t] || k.ce[t] < p);
      if p < k.cs[t] {
        assert left[p - c.start[t]] == k.s[p] && vs[p - c.start[t]] == k.s[p];
      } else {
        assert right[p - k.ce[t] - 1] == k.s[p] && vs[|left| + p - k.ce[t] - 1] == k.s[p];
      }
    }
  }

  /** Unless the block is one byte over and over, [ss, ss] is full when both scans end: assertion 1007. */
  lemma MiddleFull(c: Ctx, k: Copy, s0: seq<int>)
    requires Finished(c, k, s0) && !OneByte(c.b, c.ss)
    ensures k.cs[c.ss] == k.ce[c.ss] + 1
  {
    if k.cs[c.ss] <= k.ce[c.ss] {
      var v := GapMisses(c, k, c.ss);
      forall p {:trigger k.s[p]} | 0 <= p < |c.b| && k.src[p] >= 0 ensures k.s[p] != v {
        if k.s[p] == v { FilledIn(c, k, p); }
      }
      MissingMeansOneByte(c, k, s0, v);
    }
  }

  /** With [ss, ss] full, every open small bucket [t, ss] is full. */
  lemma AllFull(c: Ctx, k: Copy, s0: seq<int>, t: int)
    requires Finished(c, k, s0) && k.cs[c.ss] == k.ce[c.ss] + 1 && 0 <= t < 256 && !c.done[t]
    ensures k.cs[t] == k.ce[t] + 1
  {
    var n := |c.b|;
    if k.cs[t] <= k.ce[t] {
      var v := GapMisses(c, k, t);
      var w := Succ(v, n);
      var x;
      if c.b[Succ(w, n)] != c.ss {
        x := OuterScanned(c, k, s0, w);
      } else {
        assert w in Members(c, c.ss);
        x := FullHolds(c, k, c.ss, w);
        assert c.first[x] == c.ss;
        InnerScanned(c, k, s0, x);
      }
      var p := PredPlaced(c, k, x, v);
      assert false;
    }
  }

  /** ptr after the scan: every rotation in its small bucket still, the open buckets [t, ss] sorted,
      all others untouched. */
  ghost predicate Copied(c: Ctx, s0: seq<int>, s: seq<int>) {
    && Context(c) && |s| == |s0| == |c.b| && IsPerm(s)
    && (forall p {:trigger s[p]} :: 0 <= p < |s| ==> At2(c, s[p], p))
    && (forall p, q {:trigger s[p], s[q]} ::
          (0 <= p < q < |s| && c.first[p] == c.first[q] && !c.done[c.first[p]]
             && c.second[p] == c.second[q] == c.ss) ==>
          c.rank[s[p]] <= c.rank[s[q]])
    && (forall p {:trigger s[p]} :: 0 <= p < |s| && (c.second[p] != c.ss || c.done[c.first[p]]) ==> s[p] == s0[p])
  }

  lemma At2Differ(c: Ctx, v: int, p: int, w: int, q: int)
    requires Context(c) && 0 <= p < |c.b| && 0 <= q < |c.b| && At2(c, v, p) && At2(c, w, q)
    requires c.first[p] != c.first[q] || c.second[p] != c.second[q]
    ensures v != w
  {
  }

  lemma FullFilled(c: Ctx, k: Copy, s0: seq<int>, p: int)
    requires Finished(c, k, s0) && k.cs[c.ss] == k.ce[c.ss] + 1 && 0 <= p < |c.b|
    ensures At2(c, k.s[p], p)
    ensures c.second[p] == c.ss && !c.done[c.first[p]] ==> k.src[p] >= 0
    ensures c.second[p] != c.ss || c.done[c.first[p]] ==> k.src[p] < 0 && k.s[p] == s0[p]
  {
    if c.second[p] == c.ss && !c.done[c.first[p]] {
      AllFull(c, k, s0, c.first[p]);
      FilledIn(c, k, p);
    } else {
      assert At2(c, s0[p], p);
    }
  }

  lemma FinishedCopied(c: Ctx, k: Copy, s0: seq<int>)
    requires Finished(c, k, s0) && k.cs[c.ss] == k.ce[c.ss] + 1
    ensures Copied(c, s0, k.s)
  {
    forall p {:trigger k.s[p]} | 0 <= p < |c.b|
      ensures At2(c, k.s[p], p) && (c.second[p] != c.ss || c.done[c.first[p]] ==> k.s[p] == s0[p])
    {
      FullFilled(c, k, s0, p);
    }
    forall p, q {:trigger k.s[p], k.s[q]} | 0 <= p < q < |c.b|
      ensures k.s[p] != k.s[q]
      ensures c.first[p] == c.first[q] && !c.done[c.first[p]] && c.second[p] == c.second[q] == c.ss ==>
        c.rank[k.s[p]] <= c.rank[k.s[q]]
    {
      FullFilled(c, k, s0, p);
      FullFilled(c, k, s0, q);
      if c.first[p] != c.first[q] || c.second[p] != c.second[q] {
        At2Differ(c, k.s[p], p, k.s[q], q);
      } else if k.src[p] >= 0 {
        FilledApart(c, k, p, q);
      } else {
        assert s0[p] != s0[q];
      }
    }
  }

  /** In a block of one byte all rotations are equal and nothing needs moving. */
  lemma OneByteCopied(c: Ctx, s0: seq<int>)
    requires Prepared(c, s0) && OneByte(c.b, c.ss)
    ensures Copied(c, s0, s0)
  {
    forall p, q {:trigger s0[p], s0[q]} | 0 <= p < |c.b| && 0 <= q < |c.b| ensures c.rank[s0[p]] <= c.rank[s0[q]] {
      OneByteTies(c.b, c.ss, s0[p], s0[q], |c.b|);
    }
  }

  lemma {:induction false} OneByteTies(b: Block, ss: int, i: nat, j: nat, k: nat)
    requires OneByte(b, ss)
    ensures Cmp(b, i, j, k) == 0
    decreases k
  {
    if k > 0 { OneByteTies(b, ss, i + 1, j + 1, k - 1); }
  }

  // ---- the loops ----

  /** Everything the loops keep true: the invariant of the scan, the untouched positions, and that
      nothing at all happens in a block of one byte. */
  ghost predicate Run(c: Ctx, k: Copy, s0: seq<int>, lo: int, hi: int) {
    && Copying(c, k) && Prepared(c, s0) && Kept(k, s0) && BigBucket(c, lo, hi)
    && lo <= c.start[c.ss] && c.stop[c.ss] <= hi
    && (OneByte(c.b, c.ss) ==> k == Beginning(c, s0, lo, hi))
  }

  /** Run, kept closed while the loops only pass it on: Open is never mentioned by accident. */
  ghost predicate Running(c: Ctx, k: Copy, s0: seq<int>, lo: int, hi: int) {
    forall u {:trigger Open(k, u)} :: Open(k, u) ==> Run(c, k, s0, lo, hi)
  }

  ghost predicate Open(k: Copy, u: int) { true }

  lemma RunningOpens(c: Ctx, k: Copy, s0: seq<int>, lo: int, hi: int)
    ensures Running(c, k, s0, lo, hi) <==> Run(c, k, s0, lo, hi)
  {
    assert Open(k, 0);
  }

  lemma KeptScan(c: Ctx, k: Copy, left: bool, s0: seq<int>)
    requires Kept(k, s0) && Shape(c, k) && 0 <= (if left then k.xl else k.xr) < |c.b|
    ensures Kept(Scan(c, k, left), s0)
  {
  }

  lemma LeftReady(c: Ctx, k: Copy, lo: int, hi: int)
    requires Copying(c, k) && BigBucket(c, lo, hi) && lo <= k.xl < k.cs[c.ss] && c.stop[c.ss] <= hi && k.xr == hi - 1
    ensures Ready(c, k, true, k.xl)
  {
    assert c.first[k.xl] == c.ss;
    if c.second[k.xl] == c.ss { assert k.src[k.xl] >= 0; }
  }

  lemma RightReady(c: Ctx, k: Copy, lo: int, hi: int)
    requires Copying(c, k) && BigBucket(c, lo, hi) && k.xl == k.cs[c.ss] && lo <= c.start[c.ss]
    requires k.ce[c.ss] < k.xr < hi
    ensures Ready(c, k, false, k.xr)
  {
    assert c.first[k.xr] == c.ss;
    if c.second[k.xr] == c.ss { assert k.src[k.xr] >= 0; }
  }

  /** Nothing can be scanned in a block of one byte. */
  lemma OneByteIdle(c: Ctx, s0: seq<int>, lo: int, hi: int, x: int)
    requires Prepared(c, s0) && OneByte(c.b, c.ss)
    ensures !Good(c, Beginning(c, s0, lo, hi), x)
  {
    if 0 <= x < |c.b| { assert At2(c, s0[x], x); }
  }

  lemma NotIdle(c: Ctx, k: Copy, left: bool, j: int, s0: seq<int>, lo: int, hi: int)
    requires Ready(c, k, left, j) && Prepared(c, s0) && Kept(k, s0)
    requires OneByte(c.b, c.ss) ==> k == Beginning(c, s0, lo, hi)
    ensures !OneByte(c.b, c.ss) && Kept(Scan(c, k, left), s0)
  {
    if OneByte(c.b, c.ss) { OneByteIdle(c, s0, lo, hi, j); }
    KeptScan(c, k, left, s0);
  }

  lemma RunReady(c: Ctx, k: Copy, s0: seq<int>, lo: int, hi: int, left: bool)
    requires Run(c, k, s0, lo, hi)
    requires if left then lo <= k.xl < k.cs[c.ss] && k.xr == hi - 1 else k.xl == k.cs[c.ss] && k.ce[c.ss] < k.xr < hi
    ensures Ready(c, k, left, if left then k.xl else k.xr)
  {
    if left { LeftReady(c, k, lo, hi); } else { RightReady(c, k, lo, hi); }
  }

  lemma RunStep(c: Ctx, k: Copy, s0: seq<int>, lo: int, hi: int, left: bool)
    requires Run(c, k, s0, lo, hi) && Ready(c, k, left, if left then k.xl else k.xr)
    ensures Run(c, Scan(c, k, left), s0, lo, hi)
  {
    ScanStep(c, k, left, if left then k.xl else k.xr);
    NotIdle(c, k, left, if left then k.xl else k.xr, s0, lo, hi);
  }

  lemma NextFree(c: Ctx, k: Copy, left: bool)
    requires Ready(c, k, left, if left then k.xl else k.xr)
    ensures var t := c.b[Pred(k.s[if left then k.xl else k.xr], |c.b|)];
            !c.done[t] ==> 0 <= (if left then k.cs[t] else k.ce[t]) < |c.b|
  {
    var x := if left then k.xl else k.xr;
    var t := c.b[Pred(k.s[x], |c.b|)];
    if !c.done[t] { FreePosition(c, k, left, x, t, if left then k.cs[t] else k.ce[t]); }
  }

  /** The arrays hold the state of the scan. */
  ghost predicate Holds(c: Ctx, k: Copy, ptr: seq<int>, block: seq<int>, bigDone: seq<bool>, cs: seq<int>,
      ce: seq<int>) {
    && |c.b| == |k.s| && |k.cs| == |k.ce| == |c.done| == 256 && 0 <= c.ss < 256
    && ptr == k.s && bigDone == c.done && cs == k.cs && ce == k.ce
    && |c.b| <= |block| && block[..|c.b|] == c.b
  }

  lemma RunningStep(c: Ctx, k: Copy, s0: seq<int>, lo: int, hi: int, left: bool, j: int)
    requires |k.cs| == |k.ce| == 256 && 0 <= c.ss < 256 && Running(c, k, s0, lo, hi)
    requires if left then lo <= k.xl < k.cs[c.ss] && k.xr == hi - 1 else k.xl == k.cs[c.ss] && k.ce[c.ss] < k.xr < hi
    requires j == if left then k.xl else k.xr
    ensures Ready(c, k, left, j) && lo <= j < hi && Running(c, Scan(c, k, left), s0, lo, hi)
  {
    RunningOpens(c, k, s0, lo, hi);
    RunReady(c, k, s0, lo, hi, left);
    RunStep(c, k, s0, lo, hi, left);
    RunningOpens(c, Scan(c, k, left), s0, lo, hi);
  }

  /** What one turn does, without opening Running. */
  lemma RunOne(c: Ctx, k: Copy, s0: seq<int>, lo: int, hi: int, left: bool, j: int)
      returns (l: Copy, v: int, t: int, p: int)
    requires |c.b| == |k.s| && |k.cs| == |k.ce| == |c.done| == 256 && 0 <= c.ss < 256 && Running(c, k, s0, lo, hi)
    requires if left then lo <= k.xl < k.cs[c.ss] && k.xr == hi - 1 else k.xl == k.cs[c.ss] && k.ce[c.ss] < k.xr < hi
    requires j == if left then k.xl else k.xr
    ensures Running(c, l, s0, lo, hi) && lo <= j < hi && 0 <= j < |c.b|
    ensures v == (if k.s[j] - 1 < 0 then k.s[j] - 1 + |c.b| else k.s[j] - 1) && 0 <= v < |c.b|
    ensures t == c.b[v] && 0 <= t < 256 && p == if left then k.cs[t] else k.ce[t]
    ensures l.xl == (if left then j + 1 else k.xl) && l.xr == (if left then k.xr else j - 1)
    ensures c.done[t] ==> l.s == k.s && l.cs == k.cs && l.ce == k.ce
    ensures !c.done[t] ==> 0 <= p < |c.b| && l.s == k.s[p := v] && l.cs == (if left then k.cs[t := p + 1] else k.cs)
    ensures !c.done[t] ==> l.ce == (if left then k.ce else k.ce[t := p - 1])
    ensures if left then j + 1 <= l.cs[c.ss] else j - 1 >= l.ce[c.ss] && l.cs[c.ss] == k.cs[c.ss]
  {
    RunningStep(c, k, s0, lo, hi, left, j);
    l := Scan(c, k, left);
    v := Pred(k.s[j], |c.b|);
    t := c.b[v];
    p := if left then k.cs[t] else k.ce[t];
    NextFree(c, k, left);
  }

  /** One turn of either loop: the predecessor of the scanned rotation goes to the next free
      position of its small bucket. */
  method ScanOne(ptr: array<int>, block: array<int>, bigDone: array<bool>, copyStart: array<int>, copyEnd: array<int>,
      n: nat, left: bool, j: int, ghost c: Ctx, ghost k: Copy, ghost s0: seq<int>, ghost lo: int, ghost hi: int)
      returns (ghost l: Copy)
    requires ptr != block && ptr != copyStart && ptr != copyEnd && copyStart != copyEnd
    requires block != copyStart && block != copyEnd && n == |c.b|
    requires Holds(c, k, ptr[..], block[..], bigDone[..], copyStart[..], copyEnd[..]) && Running(c, k, s0, lo, hi)
    requires if left then lo <= k.xl < k.cs[c.ss] && k.xr == hi - 1 else k.xl == k.cs[c.ss] && k.ce[c.ss] < k.xr < hi
    requires j == if left then k.xl else k.xr
    modifies ptr, copyStart, copyEnd
    ensures Holds(c, l, ptr[..], block[..], bigDone[..], copyStart[..], copyEnd[..]) && Running(c, l, s0, lo, hi)
    ensures if left then l.xl == j + 1 <= l.cs[c.ss] && l.xr == k.xr
      else l.xr == j - 1 >= l.ce[c.ss] && l.xl == k.xl == l.cs[c.ss]
    ensures lo <= j < hi
  {
    ghost var w, t, p;
    l, w, t, p := RunOne(c, k, s0, lo, hi, left, j);
    var v := ptr[j] - 1;
    if v < 0 { v := v + n; }
    var c1 := block[v];
    assert c1 == block[..n][v] == c.b[v];
    if !bigDone[c1] {
      if left {
        ptr[copyStart[c1]] := v;
        copyStart[c1] := copyStart[c1] + 1;
      } else {
        ptr[copyEnd[c1]] := v;
        copyEnd[c1] := copyEnd[c1] - 1;
      }
    }
  }

  method LeftScan(ptr: array<int>, block: array<int>, bigDone: array<bool>, copyStart: array<int>, copyEnd: array<int>,
      n: nat, ss: int, lo: int, ghost hi: int, ghost c: Ctx, ghost s0: seq<int>, ghost k0: Copy) returns (ghost k: Copy)
    requires ptr != block && ptr != copyStart && ptr != copyEnd && copyStart != copyEnd
    requires block != copyStart && block != copyEnd && n == |c.b| && ss == c.ss
    requires Holds(c, k0, ptr[..], block[..], bigDone[..], copyStart[..], copyEnd[..]) && Running(c, k0, s0, lo, hi)
    requires lo == k0.xl <= k0.cs[ss] && k0.xr == hi - 1
    modifies ptr, copyStart, copyEnd
    ensures Holds(c, k, ptr[..], block[..], bigDone[..], copyStart[..], copyEnd[..]) && Running(c, k, s0, lo, hi)
    ensures k.xl == k.cs[ss] && k.xr == hi - 1
  {
    k := k0;
    var j := lo;
    while j < copyStart[ss]
      invariant Holds(c, k, ptr[..], block[..], bigDone[..], copyStart[..], copyEnd[..]) && Running(c, k, s0, lo, hi)
      invariant lo <= j == k.xl <= k.cs[ss] && k.xr == hi - 1
      decreases hi - j
    {
      k := ScanOne(ptr, block, bigDone, copyStart, copyEnd, n, true, j, c, k, s0, lo, hi);
      j := j + 1;
    }
  }

  method RightScan(ptr: array<int>, block: array<int>, bigDone: array<bool>, copyStart: array<int>, copyEnd: array<int>,
      n: nat, ss: int, ghost lo: int, hi: int, ghost c: Ctx, ghost s0: seq<int>, ghost k0: Copy) returns (ghost k: Copy)
    requires ptr != block && ptr != copyStart && ptr != copyEnd && copyStart != copyEnd
    requires block != copyStart && block != copyEnd && n == |c.b| && ss == c.ss
    requires Holds(c, k0, ptr[..], block[..], bigDone[..], copyStart[..], copyEnd[..]) && Running(c, k0, s0, lo, hi)
    requires k0.xl == k0.cs[ss] && k0.ce[ss] <= k0.xr == hi - 1
    modifies ptr, copyStart, copyEnd
    ensures Holds(c, k, ptr[..], block[..], bigDone[..], copyStart[..], copyEnd[..]) && Running(c, k, s0, lo, hi)
    ensures k.xl == k.cs[ss] && k.xr == k.ce[ss]
  {
    k := k0;
    var j := hi - 1;
    while j > copyEnd[ss]
      invariant Holds(c, k, ptr[..], block[..], bigDone[..], copyStart[..], copyEnd[..]) && Running(c, k, s0, lo, hi)
      invariant k.xl == k.cs[ss] && k.ce[ss] <= j == k.xr < hi
      decreases j - lo
    {
      k := ScanOne(ptr, block, bigDone, copyStart, copyEnd, n, false, j, c, k, s0, lo, hi);
      j := j - 1;
    }
  }

  /** Step 2: both scans, and assertion 1007 between them and the next step. */
  method CopyBucket(ptr: array<int>, block: array<int>, bigDone: array<bool>, copyStart: array<int>,
      copyEnd: array<int>, n: nat, ss: int, lo: int, hi: int, ghost c: Ctx)
    requires ptr != block && ptr != copyStart && ptr != copyEnd && copyStart != copyEnd
    requires block != copyStart && block != copyEnd && n == |c.b| <= block.Length && ss == c.ss
    requires Prepared(c, ptr[..]) && BigBucket(c, lo, hi) && lo <= c.start[ss] && c.stop[ss] <= hi
    requires bigDone[..] == c.done && copyStart[..] == c.start && block[..n] == c.b
    requires copyEnd.Length == 256 && forall t {:trigger copyEnd[t]} :: 0 <= t < 256 ==> copyEnd[t] == c.stop[t] - 1
    modifies ptr, copyStart, copyEnd
    ensures Copied(c, old(ptr[..]), ptr[..])
    ensures copyStart.Length == copyEnd.Length == 256
    ensures copyStart[ss] - 1 == copyEnd[ss]
      || (copyStart[ss] == c.start[ss] && copyEnd[ss] == c.stop[ss] - 1 && OneByte(c.b, ss))
  {
    ghost var s0 := ptr[..];
    ghost var k := Beginning(c, s0, lo, hi);
    ScanBegins(c, s0, lo, hi);
    RunningOpens(c, k, s0, lo, hi);
    assert copyEnd[..] == k.ce;
    k := LeftScan(ptr, block, bigDone, copyStart, copyEnd, n, ss, lo, hi, c, s0, k);
    RunningOpens(c, k, s0, lo, hi);
    k := RightScan(ptr, block, bigDone, copyStart, copyEnd, n, ss, lo, hi, c, s0, k);
    RunningOpens(c, k, s0, lo, hi);
    if OneByte(c.b, ss) {
      OneByteCopied(c, s0);
    } else {
      MiddleFull(c, k, s0);
      FinishedCopied(c, k, s0);
    }
  }
}
