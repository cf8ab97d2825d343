/** mainSort: a two-byte radix sort, then each big bucket finished by sorting some small buckets and
    copying others, with quadrants caching what is known so far. */
module MainSort {
  import opened Permutations
  import opened Counting
  import opened Rotations
  import opened Segments
  import opened MainCompare
  import opened TwoByteSort
  import C = CopyPhase
  import F = FallbackQSort
  import M = MainQSort
  import Bits

  /** Small bucket [s, t]: the rotations that start with bytes s and t. */
  function Small(s: int, t: int): int { 256 * s + t }

  lemma SmallParts(s: int, t: int)
    requires 0 <= s < 256 && 0 <= t < 256
    ensures 0 <= Small(s, t) < 65536 && Small(s, t) / 256 == s && Small(s, t) % 256 == t
  {
  }

  lemma SmallOf(c: int)
    requires 0 <= c < 65536
    ensures 0 <= c / 256 < 256 && 0 <= c % 256 < 256 && Small(c / 256, c % 256) == c
  {
  }

  // ---- marks in ftab ----

  const SETMASK := 2097152

  /** x & SETMASK, x & CLEARMASK and x | SETMASK on the values ftab can hold. */
  predicate HasMark(x: int) { x / SETMASK % 2 == 1 }
  function Clear(x: int): int { if HasMark(x) then x - SETMASK else x }
  function WithMark(x: int): int { if HasMark(x) then x else x + SETMASK }

  ghost function Marked(x: int, m: bool): int { if m then x + SETMASK else x }

  lemma MarkBits(x: int, m: bool)
    requires 0 <= x < SETMASK
    ensures HasMark(Marked(x, m)) == m && Clear(Marked(x, m)) == x && WithMark(Marked(x, m)) == Marked(x, true)
  {
  }

  /** ftab holds the bucket starts, with a mark on the buckets that are sorted. */
  ghost predicate Tab(ftab: seq<int>, start: seq<int>, mark: seq<bool>) {
    && |ftab| == |start| == |mark| == 65537
    && forall c {:trigger ftab[c]} :: 0 <= c < 65537 ==> 0 <= start[c] < SETMASK && ftab[c] == Marked(start[c], mark[c])
  }

  method StartOf(ftab: array<int>, c: int, ghost start: seq<int>, ghost mark: seq<bool>) returns (r: int)
    requires 0 <= c <= 65536 && Tab(ftab[..], start, mark)
    ensures r == start[c]
  {
    r := Clear(ftab[c]);
    MarkBits(start[c], mark[c]);
    assert ftab[c] == ftab[..][c];
  }

  method IsSorted(ftab: array<int>, c: int, ghost start: seq<int>, ghost mark: seq<bool>) returns (r: bool)
    requires 0 <= c <= 65536 && Tab(ftab[..], start, mark)
    ensures r == mark[c]
  {
    r := HasMark(ftab[c]);
    MarkBits(start[c], mark[c]);
    assert ftab[c] == ftab[..][c];
  }

  lemma TabSet(was: seq<int>, now: seq<int>, c: int, start: seq<int>, mark: seq<bool>)
    requires 0 <= c < 65537 && Tab(was, start, mark) && now == was[c := Marked(start[c], true)]
    ensures Tab(now, start, mark[c := true])
  {
    var mark' := mark[c := true];
    forall d {:trigger start[d]} | 0 <= d < 65537
      ensures 0 <= start[d] < SETMASK
    {
      assert was[d] == Marked(start[d], mark[d]);
    }
    forall d {:trigger now[d]} | 0 <= d < 65537 ensures now[d] == Marked(start[d], mark'[d]) {
      if d != c { assert was[d] == Marked(start[d], mark[d]) && now[d] == was[d]; }
    }
  }

  method SetSorted(ftab: array<int>, c: int, ghost start: seq<int>, ghost mark: seq<bool>)
    requires 0 <= c <= 65536 && Tab(ftab[..], start, mark)
    modifies ftab
    ensures Tab(ftab[..], start, mark[c := true])
  {
    ghost var was := ftab[..];
    assert was[c] == ftab[c];
    MarkBits(start[c], mark[c]);
    ftab[c] := WithMark(ftab[c]);
    TabSet(was, ftab[..], c, start, mark);
  }

  // ---- the state of the sort ----

  /** What does not change: at[p] is the pair that belongs at position p and start[c] the first
      position of small bucket c. */
  datatype Plan = Plan(b: Block, rank: seq<int>, at: seq<int>, start: seq<int>)

  ghost predicate Planned(w: Plan) {
    var n := |w.b|;
    && N_OVERSHOOT < n <= 900000 && Ranks(w.rank, w.b) && |w.at| == n && |w.start| == 65537
    && (forall c {:trigger w.start[c]} :: 0 <= c <= 65536 ==> 0 <= w.start[c] <= n)
    && (forall c, d {:trigger w.start[c], w.start[d]} :: 0 <= c <= d <= 65536 ==> w.start[c] <= w.start[d])
    && (forall p {:trigger w.at[p]} ::
         0 <= p < n ==> 0 <= w.at[p] < 65536 && w.start[w.at[p]] <= p < w.start[w.at[p] + 1])
  }

  ghost predicate Counted(w: Plan) {
    |w.start| == 65537 && forall c {:trigger w.start[c]} :: 0 <= c <= 65536 ==> w.start[c] == Less(Pairs(w.b), c, |w.b|)
  }

  lemma InBucket(w: Plan, p: int, c: int)
    requires Planned(w) && 0 <= p < |w.b| && 0 <= c < 65536
    ensures w.start[c] <= p < w.start[c + 1] <==> w.at[p] == c
  {
    var d := w.at[p];
    if d < c { assert w.start[d + 1] <= w.start[c]; }
    if c < d { assert w.start[c + 1] <= w.start[d]; }
  }

  /** Every rotation is in its small bucket, and the marked small buckets are sorted. */
  ghost predicate Sorting(w: Plan, s: seq<int>, mark: seq<bool>) {
    && |s| == |w.b| == |w.at| == |w.rank| && IsPerm(s) && |mark| == 65537
    && (forall p {:trigger s[p]} :: 0 <= p < |s| ==> Pair(w.b, s[p]) == w.at[p])
    && (forall p, q {:trigger s[p], s[q]} ::
         0 <= p < q < |s| && w.at[p] == w.at[q] && 0 <= w.at[p] < 65536 && mark[w.at[p]] ==>
          w.rank[s[p]] <= w.rank[s[q]])
  }

  /** A finished big bucket has all its small buckets [s, t] and [t, s] sorted. */
  ghost predicate DoneMarked(mark: seq<bool>, done: seq<bool>) {
    && |mark| == 65537 && |done| == 256
    && forall s, t {:trigger Small(s, t)} :: 0 <= s < 256 && 0 <= t < 256 && (done[s] || done[t]) ==> mark[Small(s, t)]
  }

  // ---- step 1 ----

  lemma SamePairAgrees(b: Block, x: nat, y: nat)
    requires N_OVERSHOOT < |b| && x < |b| && y < |b| && Pair(b, x) == Pair(b, y)
    ensures Cmp(b, x, y, 2) == 0
  {
    C.SuccCmp(b, x, y, 1);
    C.SuccCmp(b, y, x, 1);
  }

  lemma BucketAgrees(w: Plan, s: seq<int>, mark: seq<bool>, c: int)
    requires Planned(w) && Sorting(w, s, mark) && 0 <= c < 65536
    ensures M.Agree(s, w.b, w.start[c], w.start[c + 1] - 1, 2)
  {
    forall i, j {:trigger s[i], s[j]} | w.start[c] <= i < w.start[c + 1] && w.start[c] <= j < w.start[c + 1]
      ensures Cmp(w.b, s[i], s[j], 2) == 0
    {
      InBucket(w, i, c);
      InBucket(w, j, c);
      SamePairAgrees(w.b, s[i], s[j]);
    }
  }

  /** A bucket of at most one rotation is sorted. */
  lemma TinySorted(w: Plan, s: seq<int>, mark: seq<bool>, c: int)
    requires Planned(w) && Sorting(w, s, mark) && 0 <= c < 65536 && w.start[c + 1] - 1 <= w.start[c]
    ensures Sorting(w, s, mark[c := true])
  {
    forall p, q {:trigger s[p], s[q]} | 0 <= p < q < |s| ensures !(w.at[p] == w.at[q] == c) {
      InBucket(w, p, c);
      InBucket(w, q, c);
    }
  }

  /** Rearranging inside a small bucket leaves every rotation in its bucket. */
  lemma StaysInBucket(w: Plan, s: seq<int>, t: seq<int>, mark: seq<bool>, c: int, p: int)
    requires Planned(w) && Sorting(w, s, mark) && 0 <= c < 65536 && Rearranged(s, t, w.start[c], w.start[c + 1])
    requires |t| == |s| && 0 <= p < |s|
    ensures 0 <= t[p] < |s| && Pair(w.b, t[p]) == w.at[p] && (w.at[p] != c ==> t[p] == s[p])
  {
    RearrangedAll(s, t, w.start[c], w.start[c + 1]);
    InBucket(w, p, c);
    if w.at[p] == c {
      var j := RearrangedFrom(s, t, w.start[c], w.start[c + 1], p);
      InBucket(w, j, c);
    }
  }

  lemma SortedSmall(w: Plan, s: seq<int>, t: seq<int>, mark: seq<bool>, c: int)
    requires Planned(w) && Sorting(w, s, mark) && 0 <= c < 65536 && Rearranged(s, t, w.start[c], w.start[c + 1])
    requires |t| == |s| && Ordered(t, F.ByClass(w.rank), w.start[c], w.start[c + 1] - 1)
    ensures Sorting(w, t, mark[c := true])
  {
    RearrangedAll(s, t, w.start[c], w.start[c + 1]);
    PermMultiset(s, t);
    forall p {:trigger t[p]} | 0 <= p < |s|
      ensures Pair(w.b, t[p]) == w.at[p] && (w.at[p] != c ==> t[p] == s[p])
    {
      StaysInBucket(w, s, t, mark, c, p);
    }
    forall p, q {:trigger t[p], t[q]} | 0 <= p < q < |s| && w.at[p] == w.at[q] && mark[c := true][w.at[p]]
      ensures w.rank[t[p]] <= w.rank[t[q]]
    {
      if w.at[p] == c {
        InBucket(w, p, c);
        InBucket(w, q, c);
        assert F.ByClass(w.rank)(t[p], t[q]);
      } else {
        assert t[p] == s[p] && t[q] == s[q];
      }
    }
  }

  /** Sorts small bucket [ss, j] unless it is sorted already. */
  method SortSmall(ptr: array<int>, block: array<int>, quadrant: array<int>, ftab: array<int>, n: nat, sb: int,
      budget0: int, ghost w: Plan, ghost mark: seq<bool>) returns (abandoned: bool, budget: int)
    requires ptr != block && ptr != quadrant && ptr != ftab && ftab != block && ftab != quadrant
      && n == |w.b| == ptr.Length
    requires 0 <= sb < 65536 && Planned(w) && Tab(ftab[..], w.start, mark) && Sorting(w, ptr[..], mark)
    requires Doubled(block[..], w.b) && Quadrants(quadrant[..], w.b)
    modifies ptr, ftab
    ensures abandoned ==> budget < 0
    ensures !abandoned ==> Tab(ftab[..], w.start, mark[sb := true]) && Sorting(w, ptr[..], mark[sb := true])
  {
    ghost var was := ptr[..];
    abandoned, budget := false, budget0;
    var sorted := IsSorted(ftab, sb, w.start, mark);
    if !sorted {
      var lo := StartOf(ftab, sb, w.start, mark);
      var hi := StartOf(ftab, sb + 1, w.start, mark);
      hi := hi - 1;
      if hi > lo {
        BucketAgrees(w, was, mark, sb);
        budget := M.QSort3(ptr, block, quadrant, n, lo, hi, 2, budget, w.b, w.rank);
        if budget < 0 { abandoned := true; return; }
        SortedSmall(w, was, ptr[..], mark, sb);
      } else {
        TinySorted(w, was, mark, sb);
      }
    } else {
      assert mark[sb := true] == mark;
    }
    SetSorted(ftab, sb, w.start, mark);
  }

  /** Step 1: sorts the small buckets [ss, j] for j != ss. */
  method SortBig(ptr: array<int>, block: array<int>, quadrant: array<int>, ftab: array<int>, n: nat, ss: int,
      budget0: int, ghost w: Plan, ghost mark0: seq<bool>, ghost done: seq<bool>)
      returns (abandoned: bool, budget: int, ghost mark: seq<bool>)
    requires ptr != block && ptr != quadrant && ptr != ftab && ftab != block && ftab != quadrant
      && n == |w.b| == ptr.Length
    requires 0 <= ss < 256 && Planned(w) && Tab(ftab[..], w.start, mark0) && Sorting(w, ptr[..], mark0)
      && DoneMarked(mark0, done)
    requires Doubled(block[..], w.b) && Quadrants(quadrant[..], w.b)
    modifies ptr, ftab
    ensures abandoned ==> budget < 0
    ensures !abandoned ==> Tab(ftab[..], w.start, mark) && Sorting(w, ptr[..], mark) && DoneMarked(mark, done)
    ensures !abandoned ==> forall t {:trigger Small(ss, t)} :: 0 <= t < 256 && t != ss ==> mark[Small(ss, t)]
  {
    abandoned, budget, mark := false, budget0, mark0;
    for j := 0 to 256
      invariant Tab(ftab[..], w.start, mark) && Sorting(w, ptr[..], mark) && DoneMarked(mark, done) && !abandoned
      invariant forall t {:trigger Small(ss, t)} :: 0 <= t < j && t != ss ==> mark[Small(ss, t)]
    {
      if j != ss {
        var sb := Small(ss, j);
        abandoned, budget := SortSmall(ptr, block, quadrant, ftab, n, sb, budget, w, mark);
        if abandoned { return; }
        mark := mark[sb := true];
      }
    }
  }

  // ---- step 2 ----

  /** The fixed part of the scan of big bucket ss. */
  ghost function ScanOf(w: Plan, ss: int, done: seq<bool>): C.Ctx
    requires |w.start| == 65537 && |w.at| == |w.b| && 0 <= ss < 256
  {
    C.Ctx(w.b, w.rank, seq(|w.b|, p requires 0 <= p < |w.b| => w.at[p] / 256),
      seq(|w.b|, p requires 0 <= p < |w.b| => w.at[p] % 256),
      ss, done, seq(256, t requires 0 <= t < 256 => w.start[Small(t, ss)]),
      seq(256, t requires 0 <= t < 256 => w.start[Small(t, ss) + 1]))
  }

  lemma MembersCounted(w: Plan, ss: int, done: seq<bool>, t: int)
    requires Planned(w) && Counted(w) && 0 <= ss < 256 && 0 <= t < 256
    ensures |C.Members(ScanOf(w, ss, done), t)| == w.start[Small(t, ss) + 1] - w.start[Small(t, ss)]
  {
    var l, c := Pairs(w.b), Small(t, ss);
    SmallParts(t, ss);
    OccPlaces(l, c, |l|);
    var m := C.Members(ScanOf(w, ss, done), t);
    forall v ensures v in m <==> v in Places(l, c, |l|) {
      if 0 <= v < |l| { assert l[v] == Pair(w.b, v); SmallOf(l[v]); }
    }
    assert m == Places(l, c, |l|);
    assert Less(l, c + 1, |l|) == Less(l, c, |l|) + Occ(l, c, |l|);
  }

  lemma AtSmall(w: Plan, p: int, t: int, ss: int)
    requires Planned(w) && 0 <= p < |w.b| && 0 <= t < 256 && 0 <= ss < 256
    ensures w.start[Small(t, ss)] <= p < w.start[Small(t, ss) + 1] <==> w.at[p] / 256 == t && w.at[p] % 256 == ss
  {
    SmallParts(t, ss);
    SmallOf(w.at[p]);
    InBucket(w, p, Small(t, ss));
  }

  /** Positions are in the order of their pairs. */
  lemma AtMono(w: Plan, p: int, q: int)
    requires Planned(w) && 0 <= p < q < |w.b|
    ensures w.at[p] <= w.at[q]
  {
  }

  lemma PairOrder(x: int, y: int)
    requires 0 <= x <= y < 65536
    ensures x / 256 < y / 256 || (x / 256 == y / 256 && x % 256 <= y % 256)
    ensures x / 256 == y / 256 && x % 256 == y % 256 ==> x == y
  {
  }

  lemma ScanContext(w: Plan, ss: int, done: seq<bool>)
    requires Planned(w) && Counted(w) && 0 <= ss < 256 && |done| == 256 && !done[ss]
    ensures C.Context(ScanOf(w, ss, done))
  {
    var c := ScanOf(w, ss, done);
    forall p {:trigger c.first[p]} {:trigger c.second[p]} | 0 <= p < |w.b|
      ensures 0 <= c.first[p] < 256 && 0 <= c.second[p] < 256
    {
      SmallOf(w.at[p]);
    }
    forall p, q {:trigger c.first[p], c.first[q]} | 0 <= p < q < |w.b|
      ensures c.first[p] < c.first[q] || (c.first[p] == c.first[q] && c.second[p] <= c.second[q])
    {
      AtMono(w, p, q);
      PairOrder(w.at[p], w.at[q]);
    }
    forall t {:trigger c.start[t]} {:trigger c.stop[t]} | 0 <= t < 256 ensures 0 <= c.start[t] <= c.stop[t] <= |w.b| {
      SmallParts(t, ss);
    }
    forall t {:trigger C.Members(c, t)} | 0 <= t < 256 ensures |C.Members(c, t)| == c.stop[t] - c.start[t] {
      MembersCounted(w, ss, done, t);
    }
    forall t, p {:trigger c.start[t], c.first[p]} | 0 <= t < 256 && 0 <= p < |w.b|
      ensures c.start[t] <= p < c.stop[t] <==> c.first[p] == t && c.second[p] == ss
    {
      AtSmall(w, p, t, ss);
    }
  }

  lemma ScanPrepared(w: Plan, ss: int, done: seq<bool>, s: seq<int>, mark: seq<bool>)
    requires Planned(w) && Sorting(w, s, mark) && 0 <= ss < 256 && C.Context(ScanOf(w, ss, done))
    requires forall t {:trigger Small(ss, t)} :: 0 <= t < 256 && t != ss ==> mark[Small(ss, t)]
    ensures C.Prepared(ScanOf(w, ss, done), s)
  {
    var c := ScanOf(w, ss, done);
    forall p {:trigger s[p]} | 0 <= p < |s| ensures C.At2(c, s[p], p) { assert Pair(w.b, s[p]) == w.at[p]; }
    forall p, q {:trigger s[p], s[q]} | 0 <= p < q < |s| && c.first[p] == c.first[q] == ss
      && c.second[p] == c.second[q] != ss
      ensures w.rank[s[p]] <= w.rank[s[q]]
    {
      SmallOf(w.at[p]);
      SmallOf(w.at[q]);
      assert w.at[p] == Small(ss, c.second[p]);
    }
  }

  ghost function MarkColumn(mark: seq<bool>, ss: int): (r: seq<bool>)
    ensures |r| == |mark|
  {
    seq(|mark|, c requires 0 <= c < |mark| => mark[c] || (c < 65536 && c % 256 == ss))
  }

  lemma CopiedSorting(w: Plan, ss: int, done: seq<bool>, s0: seq<int>, s: seq<int>, mark: seq<bool>)
    requires Planned(w) && Sorting(w, s0, mark) && DoneMarked(mark, done) && 0 <= ss < 256
    requires C.Copied(ScanOf(w, ss, done), s0, s)
    ensures Sorting(w, s, MarkColumn(mark, ss))
  {
    var c, mark' := ScanOf(w, ss, done), MarkColumn(mark, ss);
    forall p {:trigger s[p]} | 0 <= p < |s| ensures Pair(w.b, s[p]) == w.at[p] {
      assert C.At2(c, s[p], p);
      SmallOf(w.at[p]);
      SmallOf(Pair(w.b, s[p]));
    }
    forall p, q {:trigger s[p], s[q]} | 0 <= p < q < |s| && w.at[p] == w.at[q] && mark'[w.at[p]]
      ensures w.rank[s[p]] <= w.rank[s[q]]
    {
      SmallOf(w.at[p]);
      assert c.first[p] == c.first[q] && c.second[p] == c.second[q];
      if c.second[p] == ss && !done[c.first[p]] {
      } else {
        assert s[p] == s0[p] && s[q] == s0[q];
        assert w.at[p] == Small(c.first[p], c.second[p]);
        assert mark[w.at[p]];
      }
    }
  }

  lemma ScanBucket(w: Plan, ss: int, done: seq<bool>)
    requires Planned(w) && 0 <= ss < 256 && C.Context(ScanOf(w, ss, done))
    ensures var c := ScanOf(w, ss, done); var lo, hi := w.start[256 * ss], w.start[256 * (ss + 1)];
            C.BigBucket(c, lo, hi) && lo <= c.start[ss] && c.stop[ss] <= hi
  {
    var c := ScanOf(w, ss, done);
    var lo, hi := w.start[256 * ss], w.start[256 * (ss + 1)];
    SmallParts(ss, ss);
    forall p {:trigger c.first[p]} | 0 <= p < |w.b| ensures c.first[p] == ss <==> lo <= p < hi {
      var d := w.at[p];
      SmallOf(d);
      if d < 256 * ss { assert w.start[d + 1] <= lo; }
      if 256 * ss <= d < 256 * (ss + 1) { assert lo <= w.start[d] && w.start[d + 1] <= hi; }
      if 256 * (ss + 1) <= d { assert hi <= w.start[d]; }
    }
  }

  /** Marks the small buckets [j, ss]. */
  method MarkCopied(ftab: array<int>, ss: int, ghost start: seq<int>, ghost mark: seq<bool>)
    requires 0 <= ss < 256 && Tab(ftab[..], start, mark)
    modifies ftab
    ensures Tab(ftab[..], start, MarkColumn(mark, ss))
  {
    ghost var m := mark;
    for j := 0 to 256
      invariant |m| == 65537 && Tab(ftab[..], start, m)
      invariant forall c {:trigger m[c]} :: 0 <= c < 65537 ==> m[c] == (mark[c] || (c < 256 * j && c % 256 == ss))
    {
      SetSorted(ftab, Small(j, ss), start, m);
      MarkNext(mark, m, ss, j);
      m := m[Small(j, ss) := true];
    }
    assert m == MarkColumn(mark, ss);
  }

  lemma MarkNext(mark: seq<bool>, m: seq<bool>, ss: int, j: int)
    requires |m| == |mark| == 65537 && 0 <= ss < 256 && 0 <= j < 256
    requires forall c {:trigger m[c]} :: 0 <= c < 65537 ==> m[c] == (mark[c] || (c < 256 * j && c % 256 == ss))
    ensures var m' := m[Small(j, ss) := true];
            forall c {:trigger m'[c]} :: 0 <= c < 65537 ==> m'[c] == (mark[c] || (c < 256 * (j + 1) && c % 256 == ss))
  {
    var m' := m[Small(j, ss) := true];
    forall c {:trigger m'[c]} | 0 <= c < 65537 ensures m'[c] == (mark[c] || (c < 256 * (j + 1) && c % 256 == ss)) {
      if c != Small(j, ss) { assert m'[c] == m[c]; }
    }
  }

  /** copyStart and copyEnd: the bounds of the small buckets [j, ss]. */
  method CopyRange(ftab: array<int>, ss: int, ghost c: C.Ctx, ghost w: Plan, ghost mark: seq<bool>)
      returns (copyStart: array<int>, copyEnd: array<int>)
    requires 0 <= ss < 256 && Planned(w) && Tab(ftab[..], w.start, mark) && |c.start| == |c.stop| == 256
    requires forall t {:trigger Small(t, ss)} ::
      0 <= t < 256 ==> c.start[t] == w.start[Small(t, ss)] && c.stop[t] == w.start[Small(t, ss) + 1]
    ensures fresh(copyStart) && fresh(copyEnd) && copyStart != copyEnd && copyStart.Length == copyEnd.Length == 256
    ensures copyStart[..] == c.start && forall t {:trigger copyEnd[t]} :: 0 <= t < 256 ==> copyEnd[t] == c.stop[t] - 1
  {
    copyStart, copyEnd := new int[256], new int[256];
    for j := 0 to 256
      modifies copyStart, copyEnd
      invariant forall t {:trigger copyStart[t]} :: 0 <= t < j ==> copyStart[t] == c.start[t]
      invariant forall t {:trigger copyEnd[t]} :: 0 <= t < j ==> copyEnd[t] == c.stop[t] - 1
    {
      copyStart[j] := StartOf(ftab, Small(j, ss), w.start, mark);
      var stop := StartOf(ftab, Small(j, ss) + 1, w.start, mark);
      copyEnd[j] := stop - 1;
    }
  }

  lemma ScanReady(w: Plan, ss: int, done: seq<bool>, s: seq<int>, mark: seq<bool>)
    requires Planned(w) && Counted(w) && Sorting(w, s, mark) && 0 <= ss < 256 && |done| == 256 && !done[ss]
    requires forall t {:trigger Small(ss, t)} :: 0 <= t < 256 && t != ss ==> mark[Small(ss, t)]
    ensures var c := ScanOf(w, ss, done); var lo, hi := w.start[256 * ss], w.start[256 * (ss + 1)];
            && C.Prepared(c, s) && C.BigBucket(c, lo, hi) && lo <= c.start[ss] && c.stop[ss] <= hi
            && (C.OneByte(w.b, ss) ==> c.start[ss] == 0 && c.stop[ss] == |w.b|)
  {
    ScanContext(w, ss, done);
    ScanPrepared(w, ss, done, s, mark);
    ScanBucket(w, ss, done);
    OneByteCase(w, ss, done);
  }

  /** Step 2: sets up the scan of big bucket ss, copies, and marks what is now sorted. */
  method CopyBig(ptr: array<int>, block: array<int>, bigDone: array<bool>, ftab: array<int>, n: nat, ss: int,
      ghost w: Plan, ghost mark: seq<bool>)
    requires ptr != block && ptr != ftab && ftab != block && n == |w.b| == ptr.Length && bigDone.Length == 256
    requires 0 <= ss < 256 && !bigDone[ss] && Planned(w) && Counted(w) && Doubled(block[..], w.b) && block[..n] == w.b
    requires Tab(ftab[..], w.start, mark) && Sorting(w, ptr[..], mark) && DoneMarked(mark, bigDone[..])
    requires forall t {:trigger Small(ss, t)} :: 0 <= t < 256 && t != ss ==> mark[Small(ss, t)]
    modifies ptr, ftab
    ensures Tab(ftab[..], w.start, MarkColumn(mark, ss)) && Sorting(w, ptr[..], MarkColumn(mark, ss))
  {
    ghost var done, was := bigDone[..], ptr[..];
    ghost var c := ScanOf(w, ss, done);
    var copyStart, copyEnd := CopyRange(ftab, ss, c, w, mark);
    ScanReady(w, ss, done, was, mark);
    var lo := StartOf(ftab, 256 * ss, w.start, mark);
    var hi := StartOf(ftab, 256 * (ss + 1), w.start, mark);
    C.CopyBucket(ptr, block, bigDone, copyStart, copyEnd, n, ss, lo, hi, c);
    assert copyStart[ss] - 1 == copyEnd[ss] || (copyStart[ss] == 0 && copyEnd[ss] == n - 1);  // 1007
    CopiedSorting(w, ss, done, was, ptr[..], mark);
    MarkCopied(ftab, ss, w.start, mark);
  }

  lemma OneByteCase(w: Plan, ss: int, done: seq<bool>)
    requires Planned(w) && Counted(w) && 0 <= ss < 256
    ensures C.OneByte(w.b, ss) ==> w.start[Small(ss, ss)] == 0 && w.start[Small(ss, ss) + 1] == |w.b|
  {
    var l, c := Pairs(w.b), Small(ss, ss);
    if C.OneByte(w.b, ss) {
      forall i | 0 <= i < |l| ensures l[i] == c { assert l[i] == Pair(w.b, i); }
      MembersCounted(w, ss, done, ss);
      assert Places(l, c, |l|) == Below(|l|);
      OccPlaces(l, c, |l|);
      LessBound(l, c + 1, |l|);
    }
  }

  // ---- step 3 ----

  lemma {:induction false} ShrMono(i: nat, j: nat, k: nat)
    requires i <= j
    ensures Bits.Shr(i, k) <= Bits.Shr(j, k)
  {
    if k > 0 { ShrMono(i, j, k - 1); }
  }

  /** lo..hi-1 holds the rotations that start with ss, in order. */
  ghost predicate BigSorted(w: Plan, s: seq<int>, ss: int, lo: int, hi: int) {
    && |s| == |w.b| == |w.rank| && IsPerm(s) && 0 <= lo <= hi <= |s|
    && (forall p {:trigger s[p]} :: 0 <= p < |s| ==> (w.b[s[p]] == ss <==> lo <= p < hi))
    && (forall p, q {:trigger s[p], s[q]} :: lo <= p < q < hi ==> w.rank[s[p]] <= w.rank[s[q]])
  }

  /** The quadrants from position m of the big bucket on have been renumbered. */
  ghost predicate Renumbered(w: Plan, s: seq<int>, q0: seq<int>, q: seq<int>, ss: int, lo: int, m: int, hi: int,
      k: nat) {
    && |q| == |q0| >= |w.b| + N_OVERSHOOT && |s| == |w.b| && 0 <= lo <= m <= hi <= |s| && IsPerm(s)
    && N_OVERSHOOT < |w.b|
    && (forall p {:trigger s[p]} :: m <= p < hi ==> q[s[p]] == Bits.Shr(p - lo, k))
    && (forall i {:trigger q[i]} :: 0 <= i < |w.b| && w.b[i] != ss ==> q[i] == q0[i])
    && forall i {:trigger q[i]} :: |w.b| <= i < |w.b| + N_OVERSHOOT ==> q[i] == q[i - |w.b|]
  }

  lemma RenumberOne(w: Plan, s: seq<int>, q0: seq<int>, q: seq<int>, ss: int, lo: int, m: int, hi: int, k: nat,
      r: seq<int>)
    requires BigSorted(w, s, ss, lo, hi) && lo < m && Renumbered(w, s, q0, q, ss, lo, m, hi, k)
    requires var a, v := s[m - 1], Bits.Shr(m - 1 - lo, k);
             r == if a < N_OVERSHOOT then q[a := v][a + |w.b| := v] else q[a := v]
    ensures Renumbered(w, s, q0, r, ss, lo, m - 1, hi, k)
  {
    forall p {:trigger s[p]} | m - 1 <= p < hi ensures r[s[p]] == Bits.Shr(p - lo, k) {
      assert p != m - 1 ==> s[p] != s[m - 1];
    }
  }

  lemma RenumberedAt(w: Plan, s: seq<int>, q0: seq<int>, q: seq<int>, ss: int, lo: int, hi: int, k: nat, x: int)
      returns (p: int)
    requires BigSorted(w, s, ss, lo, hi) && Renumbered(w, s, q0, q, ss, lo, lo, hi, k) && 0 <= x < |w.b| && w.b[x] == ss
    ensures lo <= p < hi && s[p] == x && q[x] == Bits.Shr(p - lo, k)
  {
    p := PermHits(s, x);
  }

  /** Renumbering a sorted big bucket keeps the meaning of the quadrants. */
  lemma RenumberedQuadrants(w: Plan, s: seq<int>, q0: seq<int>, q: seq<int>, ss: int, lo: int, hi: int, k: nat)
    requires BigSorted(w, s, ss, lo, hi) && Renumbered(w, s, q0, q, ss, lo, lo, hi, k) && Quadrants(q0, w.b)
      && Ranks(w.rank, w.b)
    ensures Quadrants(q, w.b)
  {
    var n := |w.b|;
    forall i, j {:trigger q[i], q[j]} | 0 <= i < n && 0 <= j < n && w.b[i] == w.b[j] && q[i] < q[j]
      ensures Cmp(w.b, i, j, n) <= 0
    {
      if w.b[i] == ss {
        var x := RenumberedAt(w, s, q0, q, ss, lo, hi, k, i);
        var y := RenumberedAt(w, s, q0, q, ss, lo, hi, k, j);
        if y <= x { ShrMono(y - lo, x - lo, k); }
        assert w.rank[i] <= w.rank[j];
      } else {
        assert q[i] == q0[i] && q[j] == q0[j];
      }
    }
  }

  method ShiftsFor(bbSize: nat) returns (shifts: nat)
    ensures Bits.Shr(bbSize, shifts) <= 65534
  {
    shifts := 0;
    while Bits.Shr(bbSize, shifts) > 65534
      decreases Bits.Shr(bbSize, shifts)
    {
      shifts := shifts + 1;
    }
  }

  method SetQuadrant(quadrant: array<int>, n: nat, a: int, v: int)
    requires 0 <= a < n && n + N_OVERSHOOT <= quadrant.Length && N_OVERSHOOT < n
    modifies quadrant
    ensures quadrant[..] == if a < N_OVERSHOOT then old(quadrant[..])[a := v][a + n := v] else old(quadrant[..])[a := v]
  {
    quadrant[a] := v;
    if a < N_OVERSHOOT { quadrant[a + n] := v; }
  }

  /** Step 3: numbers the rotations of the finished big bucket, scaled into 16 bits. */
  method UpdateQuadrants(ptr: array<int>, quadrant: array<int>, n: nat, bbStart: int, bbSize: int, ghost ss: int,
      ghost w: Plan)
      returns (shifts: nat)
    requires ptr != quadrant && n == |w.b| == ptr.Length && N_OVERSHOOT < n && bbSize >= 0
    requires Quadrants(quadrant[..], w.b) && Ranks(w.rank, w.b) && BigSorted(w, ptr[..], ss, bbStart, bbStart + bbSize)
    modifies quadrant
    ensures Quadrants(quadrant[..], w.b)
    ensures Renumbered(w, ptr[..], old(quadrant[..]), quadrant[..], ss, bbStart, bbStart, bbStart + bbSize, shifts)
    ensures Bits.Shr(bbSize, shifts) < 65536
  {
    ghost var s, q0 := ptr[..], quadrant[..];
    shifts := ShiftsFor(bbSize);
    var j := bbSize;
    while j > 0
      invariant 0 <= j <= bbSize
        && Renumbered(w, s, q0, quadrant[..], ss, bbStart, bbStart + j, bbStart + bbSize, shifts)
    {
      ghost var q := quadrant[..];
      j := j - 1;
      var a2update := ptr[bbStart + j];
      assert a2update == s[bbStart + j];
      var qVal := Bits.Shr(j, shifts);
      SetQuadrant(quadrant, n, a2update, qVal);
      RenumberOne(w, s, q0, q, ss, bbStart, bbStart + j + 1, bbStart + bbSize, shifts, quadrant[..]);
    }
    if bbSize > 0 { ShrMono(bbSize - 1, bbSize, shifts); assert Bits.Shr(bbSize - 1, shifts) <= 65535; }  // 1002
    RenumberedQuadrants(w, s, q0, quadrant[..], ss, bbStart, bbStart + bbSize, shifts);
  }

  // ---- the whole sort ----

  lemma PairDecides(w: Plan, s: seq<int>, mark: seq<bool>, p: int, q: int)
    requires Planned(w) && Sorting(w, s, mark) && 0 <= p < q < |s| && w.at[p] != w.at[q]
    ensures w.rank[s[p]] <= w.rank[s[q]]
  {
    var b, n, v, u := w.b, |w.b|, s[p], s[q];
    AtMono(w, p, q);
    PairOrder(w.at[p], w.at[q]);
    assert Pair(b, v) == w.at[p] && Pair(b, u) == w.at[q];
    C.SuccCmp(b, v, u, 1);
    C.SuccCmp(b, u, v, 1);
    assert Cmp(b, v, u, 2) < 0;
    CmpSplit(b, v, u, 2, n - 2);
    assert Cmp(b, v, u, n) <= 0;
  }

  /** Once all small buckets of big bucket ss are marked, it is sorted. */
  lemma MarkedBig(w: Plan, s: seq<int>, mark: seq<bool>, ss: int)
    requires Planned(w) && Sorting(w, s, mark) && 0 <= ss < 256
    requires forall t {:trigger Small(ss, t)} :: 0 <= t < 256 ==> mark[Small(ss, t)]
    ensures BigSorted(w, s, ss, w.start[256 * ss], w.start[256 * (ss + 1)])
  {
    var lo, hi := w.start[256 * ss], w.start[256 * (ss + 1)];
    forall p {:trigger s[p]} | 0 <= p < |s| ensures w.b[s[p]] == ss <==> lo <= p < hi {
      BigRange(w, p, ss);
      assert Pair(w.b, s[p]) == w.at[p];
    }
    forall p, q {:trigger s[p], s[q]} | lo <= p < q < hi ensures w.rank[s[p]] <= w.rank[s[q]] {
      BigRange(w, p, ss);
      if w.at[p] != w.at[q] {
        PairDecides(w, s, mark, p, q);
      } else {
        SmallOf(w.at[p]);
        assert w.at[p] == Small(ss, w.at[p] % 256);
      }
    }
  }

  lemma BigRange(w: Plan, p: int, ss: int)
    requires Planned(w) && 0 <= p < |w.b| && 0 <= ss < 256
    ensures w.at[p] / 256 == ss <==> w.start[256 * ss] <= p < w.start[256 * (ss + 1)]
  {
    var d, lo, hi := w.at[p], w.start[256 * ss], w.start[256 * (ss + 1)];
    SmallOf(d);
    if d < 256 * ss { assert w.start[d + 1] <= lo; }
    if 256 * ss <= d < 256 * (ss + 1) { assert lo <= w.start[d] && w.start[d + 1] <= hi; }
    if 256 * (ss + 1) <= d { assert hi <= w.start[d]; }
  }

  lemma AllDoneSorts(w: Plan, s: seq<int>, mark: seq<bool>, done: seq<bool>)
    requires Planned(w) && Sorting(w, s, mark) && DoneMarked(mark, done)
    requires forall c {:trigger done[c]} :: 0 <= c < 256 ==> done[c]
    ensures SortsRotations(w.b, s)
  {
    forall p, q | 0 <= p < q < |s| ensures Cmp(w.b, s[p], s[q], |w.b|) <= 0 {
      if w.at[p] != w.at[q] {
        PairDecides(w, s, mark, p, q);
      } else {
        SmallOf(w.at[p]);
        assert done[w.at[p] / 256] && mark[Small(w.at[p] / 256, w.at[p] % 256)];
      }
      assert w.rank[s[p]] <= w.rank[s[q]];
    }
    SortedIsSorts(w.b, s);
  }

  /** The plan the radix sort leaves behind. */
  lemma PlanExists(b: Block, s: seq<int>) returns (w: Plan)
    requires N_OVERSHOOT < |b| <= 900000 && IsTInverse(Pairs(b), s)
    ensures w.b == b && Planned(w) && Counted(w)
    ensures forall mark {:trigger Sorting(w, s, mark)} ::
      |mark| == 65537 && (forall c {:trigger mark[c]} :: 0 <= c < 65537 ==> !mark[c]) ==> Sorting(w, s, mark)
  {
    var l, n := Pairs(b), |b|;
    var rank := RanksExist(b);
    var start := seq(65537, c requires 0 <= c < 65537 => Less(l, c, n));
    var at := seq(n, p requires 0 <= p < n => l[s[p]]);
    w := Plan(b, rank, at, start);
    forall c {:trigger start[c]} | 0 <= c <= 65536 ensures 0 <= start[c] <= n { LessBound(l, c, n); }
    forall c, d {:trigger start[c], start[d]} | 0 <= c <= d <= 65536
      ensures start[c] <= start[d]
    {
      LessMono(l, c, d, n);
    }
    forall p {:trigger at[p]} | 0 <= p < n ensures 0 <= at[p] < 65536 && start[at[p]] <= p < start[at[p] + 1] {
      assert T(l, s[p]) == p && at[p] == l[s[p]] == Pair(b, s[p]);
      TBounds(l, s[p]);
    }
    StablePerm(l, s);
  }

  lemma StablePerm(l: seq<nat>, s: seq<int>)
    requires IsTInverse(l, s)
    ensures IsPerm(s)
  {
    forall p, q | 0 <= p < q < |s| ensures s[p] != s[q] { assert T(l, s[p]) == p && T(l, s[q]) == q; }
  }

  /** One turn of the main loop: finishes big bucket ss. */
  method FinishBig(ptr: array<int>, block: array<int>, quadrant: array<int>, ftab: array<int>, bigDone: array<bool>,
      n: nat, ss: int, last: bool, budget0: int, ghost w: Plan, ghost mark0: seq<bool>)
      returns (abandoned: bool, budget: int, ghost mark: seq<bool>)
    requires ptr != block && ptr != quadrant && ptr != ftab && ftab != block && ftab != quadrant && block != quadrant
    requires n == |w.b| == ptr.Length && n <= block.Length && block[..n] == w.b && bigDone.Length == 256
    requires 0 <= ss < 256 && !bigDone[ss]
    requires Planned(w) && Counted(w) && Doubled(block[..], w.b) && Quadrants(quadrant[..], w.b)
    requires Tab(ftab[..], w.start, mark0) && Sorting(w, ptr[..], mark0) && DoneMarked(mark0, bigDone[..])
    modifies ptr, quadrant, ftab, bigDone
    ensures abandoned ==> budget < 0
    ensures !abandoned ==> Tab(ftab[..], w.start, mark) && Sorting(w, ptr[..], mark) && DoneMarked(mark, bigDone[..])
    ensures !abandoned ==> Quadrants(quadrant[..], w.b) && bigDone[..] == old(bigDone[..])[ss := true]
  {
    ghost var done := bigDone[..];
    abandoned, budget, mark := SortBig(ptr, block, quadrant, ftab, n, ss, budget0, w, mark0, done);
    if abandoned { return; }
    assert !bigDone[ss];  // 1006
    CopyBig(ptr, block, bigDone, ftab, n, ss, w, mark);
    BigMarked(mark, done, ss);
    mark := MarkColumn(mark, ss);
    bigDone[ss] := true;
    assert bigDone[..] == done[ss := true];
    if !last {
      var bbStart := StartOf(ftab, 256 * ss, w.start, mark);
      var bbEnd := StartOf(ftab, 256 * (ss + 1), w.start, mark);
      MarkedBig(w, ptr[..], mark, ss);
      var shifts := UpdateQuadrants(ptr, quadrant, n, bbStart, bbEnd - bbStart, ss, w);
    }
  }

  lemma BigMarked(mark: seq<bool>, done: seq<bool>, ss: int)
    requires DoneMarked(mark, done) && 0 <= ss < 256
    requires forall t {:trigger Small(ss, t)} :: 0 <= t < 256 && t != ss ==> mark[Small(ss, t)]
    ensures DoneMarked(MarkColumn(mark, ss), done[ss := true])
    ensures forall t {:trigger Small(ss, t)} :: 0 <= t < 256 ==> MarkColumn(mark, ss)[Small(ss, t)]
  {
    var m := MarkColumn(mark, ss);
    forall s, t {:trigger Small(s, t)} | 0 <= s < 256 && 0 <= t < 256 && (done[ss := true][s] || done[ss := true][t])
      ensures m[Small(s, t)]
    {
      SmallParts(s, t);
    }
  }

  /** mainSort. If the budget lasts, ptr lists all rotations in order; either way the block is kept. */
  method Sort(ptr: array<int>, block: array<int>, quadrant: array<int>, ftab: array<int>, n: nat, budget0: int,
      ghost b: Block)
      returns (budget: int)
    requires ptr != block && ptr != quadrant && ptr != ftab && ftab != block && ftab != quadrant && block != quadrant
    requires N_OVERSHOOT < n == |b| == ptr.Length <= 900000 && ftab.Length == 65537
    requires n + N_OVERSHOOT <= block.Length && n + N_OVERSHOOT <= quadrant.Length && block[..n] == b
    modifies ptr, block, quadrant, ftab
    ensures budget >= 0 ==> SortsRotations(b, ptr[..])
    ensures block[..n] == b
  {
    budget := budget0;
    RadixSort(ptr, block, quadrant, ftab, n, b);
    ghost var w := PlanExists(b, ptr[..]);
    ghost var mark: seq<bool> := seq(65537, _ => false);
    assert Sorting(w, ptr[..], mark);
    var bigDone := new bool[256](_ => false);
    var order, freq := RunningOrder(ftab);
    ghost var ord := order[..];
    for i := 0 to 256
      modifies ptr, quadrant, ftab, bigDone
      invariant order[..] == ord && IsPerm(ord) && |ord| == 256
      invariant Tab(ftab[..], w.start, mark) && Sorting(w, ptr[..], mark) && DoneMarked(mark, bigDone[..])
      invariant Quadrants(quadrant[..], b)
      invariant forall k {:trigger ord[k]} :: 0 <= k < 256 ==> (bigDone[ord[k]] <==> k < i)
    {
      var ss := order[i];
      assert ss == ord[i];
      ghost var done := bigDone[..];
      var abandoned;
      abandoned, budget, mark := FinishBig(ptr, block, quadrant, ftab, bigDone, n, ss, i == 255, budget, w, mark);
      if abandoned { return; }
      forall k {:trigger ord[k]} | 0 <= k < 256 ensures bigDone[ord[k]] <==> k < i + 1 {
        assert bigDone[ord[k]] == done[ss := true][ord[k]];
      }
    }
    forall c | 0 <= c < 256 ensures bigDone[c] {
      var k := PermHits(ord, c);
    }
    AllDoneSorts(w, ptr[..], mark, bigDone[..]);
  }
}
