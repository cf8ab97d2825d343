/** mainSimpleSort and mainQSort3: sort a stretch of rotations that agree on their first d bytes. */
module MainQSort {
  import opened Rotations
  import opened Segments
  import opened Partition
  import opened MainCompare
  import F = FallbackQSort

  /** The rotations at lo..hi agree on d bytes. */
  ghost predicate Agree(s: seq<int>, b: Block, lo: int, hi: int, d: nat) {
    && 0 <= lo && hi < |s| && Indices(s, |b|)
    && forall i, j {:trigger s[i], s[j]} :: lo <= i <= hi && lo <= j <= hi ==> Cmp(b, s[i], s[j], d) == 0
  }

  /** The rotations at lo..hi agree with rotation v on d bytes. */
  ghost predicate AgreeWith(s: seq<int>, b: Block, lo: int, hi: int, d: nat, v: int) {
    && 0 <= v < |b| && 0 <= lo && hi < |s|
    && forall k {:trigger s[k]} :: lo <= k <= hi ==> 0 <= s[k] < |b| && Cmp(b, s[k], v, d) == 0
  }

  lemma AgreeMoved(s: seq<int>, t: seq<int>, b: Block, lo: int, hi: int, d: nat, lo': int, hi': int)
    requires Agree(s, b, lo, hi, d) && Rearranged(s, t, lo', hi') && |s| == |t|
    requires lo <= lo' <= hi' <= hi + 1 || hi' <= lo || hi < lo'
    requires 0 <= lo' && hi' <= |s|
    ensures Agree(t, b, lo, hi, d)
  {
    RearrangedIndices(s, t, lo', hi', |b|);
    RearrangedAll(s, t, lo', hi');
    forall i, j {:trigger t[i], t[j]} | lo <= i <= hi && lo <= j <= hi ensures Cmp(b, t[i], t[j], d) == 0 {
      var i', j' := i, j;
      if lo' <= i < hi' { i' := RearrangedFrom(s, t, lo', hi', i); }
      if lo' <= j < hi' { j' := RearrangedFrom(s, t, lo', hi', j); }
      assert s[i'] == t[i] && s[j'] == t[j];
    }
  }

  /** Comparing from depth d on, after a tie on d bytes, compares the rotations. */
  lemma AnswerAt(b: Block, x: nat, y: nat, d: nat, gt: bool)
    requires Cmp(b, x, y, d) == 0 && Answer(b, x + d, y + d, gt)
    ensures Answer(b, x, y, gt)
  {
    Decided(b, x, y, d, |b|);
  }

  /** mainGtU on two rotations that agree on d bytes. */
  method Greater(x: int, y: int, block: array<int>, quadrant: array<int>, n: nat, d: nat, budget0: int,
      ghost b: Block, ghost rank: seq<int>) returns (gt: bool, budget: int)
    requires Doubled(block[..], b) && Quadrants(quadrant[..], b) && Ranks(rank, b) && n == |b| && d <= 15
    requires 0 <= x < n && 0 <= y < n && Cmp(b, x, y, d) == 0
    ensures if gt then rank[x] >= rank[y] else rank[x] <= rank[y]
  {
    gt, budget := GtU(x + d, y + d, block, quadrant, n, budget0, b);
    AnswerAt(b, x, y, d, gt);
    CmpFlip(b, x, y, n);
  }

  /** cur is was with the value of position i moved left to m, in steps of h. */
  ghost predicate Slid(was: seq<int>, cur: seq<int>, lo: int, hi: int, i: int, m: int, h: int) {
    && |cur| == |was| && 0 <= lo <= m <= i <= hi < |was| && cur[m] == was[i]
    && Rearranged(was, cur, lo, hi + 1)
    && (forall k {:trigger cur[k]} :: lo <= k < m ==> cur[k] == was[k])
    && (h == 1 ==> forall k {:trigger cur[k]} :: m < k <= i ==> cur[k] == was[k - 1])
  }

  lemma SlidMore(was: seq<int>, cur: seq<int>, lo: int, hi: int, i: int, m: int, h: int)
    requires Slid(was, cur, lo, hi, i, m, h) && h > 0 && lo <= m - h
    ensures Slid(was, Swap(cur, m, m - h), lo, hi, i, m - h, h)
  {
    RearrangedSwap(was, cur, lo, hi + 1, m, m - h);
  }

  /** Slides the larger rotations left of i right by h, leaving a hole at m for the one at i. */
  method Slide(ptr: array<int>, block: array<int>, quadrant: array<int>, n: nat, lo: int, ghost hi: int, i: int, h: int,
      d: nat, budget0: int, ghost b: Block, ghost rank: seq<int>) returns (m: int, budget: int, ghost cur: seq<int>)
    requires ptr != block && ptr != quadrant && n == |b| && d <= 15
    requires Doubled(block[..], b) && Quadrants(quadrant[..], b) && Ranks(rank, b)
    requires 0 <= lo && lo + h <= i <= hi < ptr.Length && h > 0 && AgreeWith(ptr[..], b, lo, hi, d, ptr[i])
    modifies ptr
    ensures Slid(old(ptr[..]), cur, lo, hi, i, m, h) && ptr[..] == cur[m := ptr[m]]
    ensures h == 1 ==> forall k {:trigger old(ptr[k])} :: m <= k < i ==> rank[old(ptr[k])] >= rank[old(ptr[i])]
    ensures h == 1 && lo < m ==> rank[old(ptr[m - 1])] <= rank[old(ptr[i])]
  {
    ghost var was := ptr[..];
    var v := ptr[i];
    m, budget, cur := i, budget0, was;
    RearrangedSame(was, lo, hi + 1);
    while m > lo + h - 1
      invariant Slid(was, cur, lo, hi, i, m, h) && ptr[..] == cur[m := ptr[m]] && Passed(was, rank, i, m, h)
      decreases m
    {
      var j := m - h;
      assert ptr[j] == ptr[..][j] == cur[j] == was[j] && v == was[i];
      var gt;
      gt, budget := Greater(ptr[j], v, block, quadrant, n, d, budget, b, rank);
      if !gt { break; }
      RanksMore(was, rank, i, m, h);
      SlidMore(was, cur, lo, hi, i, m, h);
      MoveHole(ptr, m, j, cur);
      m, cur := j, Swap(cur, m, j);
    }
  }

  /** The rotations passed so far are not smaller than the one at i. */
  ghost predicate Passed(was: seq<int>, rank: seq<int>, i: int, m: int, h: int) {
    h == 1 ==>
      0 <= i < |was| && 0 <= was[i] < |rank| && forall k {:trigger was[k]} :: 0 <= m <= k < i ==>
        0 <= was[k] < |rank| && rank[was[k]] >= rank[was[i]]
  }

  lemma RanksMore(was: seq<int>, rank: seq<int>, i: int, m: int, h: int)
    requires Passed(was, rank, i, m, h) && h > 0 && 0 <= m - h < |was| && 0 <= was[m - h] < |rank| && 0 <= i < |was|
      && 0 <= was[i] < |rank|
    requires rank[was[m - h]] >= rank[was[i]]
    ensures Passed(was, rank, i, m - h, h)
  {
  }

  lemma InsertedOrdered(was: seq<int>, now: seq<int>, rank: seq<int>, lo: int, m: int, i: int)
    requires |was| == |now| && 0 <= lo <= m <= i < |was| && Indices(was, |rank|)
    requires Ordered(was, F.ByClass(rank), lo, i - 1)
    requires forall k {:trigger now[k]} :: lo <= k < m ==> now[k] == was[k]
    requires now[m] == was[i]
    requires forall k {:trigger now[k]} :: m < k <= i ==> now[k] == was[k - 1]
    requires forall k {:trigger was[k]} :: m <= k < i ==> rank[was[k]] >= rank[was[i]]
    requires lo < m ==> rank[was[m - 1]] <= rank[was[i]]
    ensures Ordered(now, F.ByClass(rank), lo, i)
  {
    var le := F.ByClass(rank);
    forall x, y {:trigger now[x], now[y]} | lo <= x < y <= i ensures le(now[x], now[y]) {
      if y == m {
        if x < m - 1 { assert le(was[x], was[m - 1]); }
      } else if x != m {
        var x', y' := if x < m then x else x - 1, if y < m then y else y - 1;
        assert now[x] == was[x'] && now[y] == was[y'];
      }
    }
  }

  /** One insertion of the sort with gap h. */
  method Insert(ptr: array<int>, block: array<int>, quadrant: array<int>, n: nat, lo: int, ghost hi: int, i: int,
      h: int, d: nat, budget0: int, ghost b: Block, ghost rank: seq<int>) returns (budget: int)
    requires ptr != block && ptr != quadrant && n == |b| && d <= 15
    requires Doubled(block[..], b) && Quadrants(quadrant[..], b) && Ranks(rank, b)
    requires 0 <= lo && lo + h <= i <= hi < ptr.Length && h > 0 && Agree(ptr[..], b, lo, hi, d)
    modifies ptr
    ensures Rearranged(old(ptr[..]), ptr[..], lo, hi + 1) && Agree(ptr[..], b, lo, hi, d)
    ensures h == 1 && Ordered(old(ptr[..]), F.ByClass(rank), lo, i - 1) ==> Ordered(ptr[..], F.ByClass(rank), lo, i)
  {
    ghost var was := ptr[..];
    var v := ptr[i];
    assert AgreeWith(was, b, lo, hi, d, v) by { assert v == was[i]; }
    var m, bud, cur := Slide(ptr, block, quadrant, n, lo, hi, i, h, d, budget0, b, rank);
    budget := bud;
    ptr[m] := v;
    assert ptr[..] == cur;
    AgreeMoved(was, cur, b, lo, hi, d, lo, hi + 1);
    if h == 1 && Ordered(was, F.ByClass(rank), lo, i - 1) {
      InsertedOrdered(was, cur, rank, lo, m, i);
    }
  }

  /** One pass with gap h. It gives up after every third insertion once the budget is gone. */
  method Pass(ptr: array<int>, block: array<int>, quadrant: array<int>, n: nat, lo: int, hi: int, h: int, d: nat,
      budget0: int, ghost b: Block, ghost rank: seq<int>) returns (abandoned: bool, budget: int)
    requires ptr != block && ptr != quadrant && n == |b| && d <= 15
    requires Doubled(block[..], b) && Quadrants(quadrant[..], b) && Ranks(rank, b)
    requires 0 <= lo <= hi < ptr.Length && h > 0 && Agree(ptr[..], b, lo, hi, d)
    modifies ptr
    ensures Rearranged(old(ptr[..]), ptr[..], lo, hi + 1) && Agree(ptr[..], b, lo, hi, d)
    ensures abandoned ==> budget < 0
    ensures !abandoned && h == 1 ==> Ordered(ptr[..], F.ByClass(rank), lo, hi)
  {
    ghost var was := ptr[..];
    budget, abandoned := budget0, false;
    var i, copy := lo + h, 0;
    RearrangedSame(was, lo, hi + 1);
    while i <= hi
      invariant lo + h <= i
      invariant Rearranged(was, ptr[..], lo, hi + 1) && Agree(ptr[..], b, lo, hi, d)
      invariant h == 1 ==> i <= hi + 1 && Ordered(ptr[..], F.ByClass(rank), lo, i - 1)
    {
      ghost var now := ptr[..];
      budget := Insert(ptr, block, quadrant, n, lo, hi, i, h, d, budget, b, rank);
      RearrangedTrans(was, now, ptr[..], lo, hi + 1);
      i, copy := i + 1, (copy + 1) % 3;
      if copy == 0 && budget < 0 { abandoned := true; return; }
    }
  }

  /** Knuth's increments. */
  const INCS: seq<int> := [1, 4, 13, 40, 121, 364, 1093, 3280, 9841, 29524, 88573, 265720, 797161, 2391484]

  /** mainSimpleSort. */
  method SimpleSort(ptr: array<int>, block: array<int>, quadrant: array<int>, n: nat, lo: int, hi: int, d: nat,
      budget0: int, ghost b: Block, ghost rank: seq<int>) returns (budget: int)
    requires ptr != block && ptr != quadrant && n == |b| && d <= 15
    requires Doubled(block[..], b) && Quadrants(quadrant[..], b) && Ranks(rank, b)
    requires 0 <= lo <= hi + 1 && hi < ptr.Length && hi - lo < 900000 && Agree(ptr[..], b, lo, hi, d)
    modifies ptr
    ensures Rearranged(old(ptr[..]), ptr[..], lo, hi + 1)
    ensures budget >= 0 ==> Ordered(ptr[..], F.ByClass(rank), lo, hi)
  {
    ghost var was := ptr[..];
    budget := budget0;
    RearrangedSame(was, lo, hi + 1);
    var bigN := hi - lo + 1;
    if bigN < 2 { return; }
    var hp := 0;
    assert INCS[0] == 1 && INCS[13] == 2391484;
    while INCS[hp] < bigN
      invariant 0 <= hp <= 13
      decreases 13 - hp
    {
      hp := hp + 1;
    }
    hp := hp - 1;
    while hp >= 0
      invariant -1 <= hp < 13
      invariant Rearranged(was, ptr[..], lo, hi + 1) && Agree(ptr[..], b, lo, hi, d)
      invariant hp == -1 ==> Ordered(ptr[..], F.ByClass(rank), lo, hi)
    {
      ghost var now := ptr[..];
      var abandoned;
      assert INCS[hp] > 0;
      abandoned, budget := Pass(ptr, block, quadrant, n, lo, hi, INCS[hp], d, budget, b, rank);
      RearrangedTrans(was, now, ptr[..], lo, hi + 1);
      if abandoned { return; }
      hp := hp - 1;
    }
  }

  const SMALL_THRESH := 20
  const DEPTH_THRESH := 14
  const STACK_SIZE := 100

  /** mmed3. */
  function Med3(a: int, b: int, c: int): (r: int)
    ensures r == a || r == b || r == c
    ensures (a <= r || b <= r) && (b <= r || c <= r) && (a <= r || c <= r)
    ensures (a >= r || b >= r) && (b >= r || c >= r) && (a >= r || c >= r)
  {
    var (lo, hi) := if a > b then (b, a) else (a, b);
    if hi > c then (if lo > c then lo else c) else hi
  }

  /** On rotations that agree on d bytes, the next byte decides. */
  lemma NextByteDecides(b: Block, rank: seq<int>, x: nat, y: nat, d: nat)
    requires Ranks(rank, b) && x < |b| && y < |b| && d < |b| && Cmp(b, x, y, d) == 0
    ensures At(b, x + d) < At(b, y + d) ==> rank[x] <= rank[y]
    ensures At(b, x + d) == At(b, y + d) ==> Cmp(b, x, y, d + 1) == 0
  {
    CmpSplit(b, x, y, d, 1);
    if At(b, x + d) < At(b, y + d) {
      CmpSplit(b, x, y, d + 1, |b| - (d + 1));
    }
  }

  /** After the partition on the byte at depth d. */
  ghost predicate SplitAt(s: seq<int>, b: Block, ranks: seq<int>, med: int, lo: int, n: int, m: int, hi: int, d: nat) {
    && Split(s, ranks, med, lo, n, m, hi) && Agree(s, b, lo, hi, d) && d < |b|
    && forall x {:trigger ranks[x]} :: 0 <= x < |b| ==> x < |ranks| && ranks[x] == At(b, x + d)
  }

  lemma SplitOrder(s: seq<int>, b: Block, rank: seq<int>, ranks: seq<int>, med: int, lo: int, n: int, m: int, hi: int,
      d: nat, i: int, j: int)
    requires SplitAt(s, b, ranks, med, lo, n, m, hi, d) && Ranks(rank, b) && lo <= i < j <= hi
    ensures F.ByClass(rank)(s[i], s[j]) || j <= n || m <= i || n < i < j < m
  {
    NextByteDecides(b, rank, s[i], s[j], d);
  }

  lemma SplitOrdered(s: seq<int>, b: Block, rank: seq<int>, ranks: seq<int>, med: int, lo: int, n: int, m: int, hi: int,
      d: nat, parts: seq<Seg>)
    requires SplitAt(s, b, ranks, med, lo, n, m, hi, d) && Ranks(rank, b)
    requires Seg(lo, n, d) in parts && Seg(m, hi, d) in parts && Seg(n + 1, m - 1, d + 1) in parts
    ensures OrderedExcept(s, F.ByClass(rank), lo, hi, parts)
  {
    forall i, j {:trigger s[i], s[j]} | lo <= i < j <= hi && !F.ByClass(rank)(s[i], s[j])
      ensures Together(parts, i, j)
    {
      SplitOrder(s, b, rank, ranks, med, lo, n, m, hi, d, i, j);
      var g := if j <= n then Seg(lo, n, d) else if m <= i then Seg(m, hi, d) else Seg(n + 1, m - 1, d + 1);
      var k :| 0 <= k < |parts| && parts[k] == g;
      assert parts[k].lo <= i && j <= parts[k].hi;
    }
  }

  lemma MiddleAgrees(s: seq<int>, b: Block, rank: seq<int>, ranks: seq<int>, med: int, lo: int, n: int, m: int, hi: int,
      d: nat)
    requires SplitAt(s, b, ranks, med, lo, n, m, hi, d) && Ranks(rank, b)
    ensures Agree(s, b, n + 1, m - 1, d + 1)
  {
    forall i, j {:trigger s[i], s[j]} | n < i < m && n < j < m ensures Cmp(b, s[i], s[j], d + 1) == 0 {
      assert ranks[s[i]] == med && ranks[s[j]] == med;
      NextByteDecides(b, rank, s[i], s[j], d);
    }
  }

  /** Every pending segment holds rotations that agree on its depth. */
  ghost predicate AllAgree(s: seq<int>, b: Block, stack: seq<Seg>) {
    forall k {:trigger stack[k]} ::
      0 <= k < |stack| ==> 0 <= stack[k].d <= 15 && Agree(s, b, stack[k].lo, stack[k].hi, stack[k].d)
  }

  /** r is a, b and c, largest first. */
  ghost predicate Descending(r: seq<Seg>, a: Seg, b: Seg, c: Seg) {
    && |r| == 3 && Size(r[0]) >= Size(r[1]) >= Size(r[2])
    && (|| (r[0] == a && r[1] == b && r[2] == c) || (r[0] == a && r[1] == c && r[2] == b)
        || (r[0] == b && r[1] == a && r[2] == c) || (r[0] == b && r[1] == c && r[2] == a)
        || (r[0] == c && r[1] == a && r[2] == b) || (r[0] == c && r[1] == b && r[2] == a))
  }

  /** The exchanges of mnextswap. */
  function BySize(a: Seg, b: Seg, c: Seg): (r: seq<Seg>)
    ensures Descending(r, a, b, c)
  {
    var (a1, b1) := if Size(a) < Size(b) then (b, a) else (a, b);
    var (b2, c2) := if Size(b1) < Size(c) then (c, b1) else (b1, c);
    var (a3, b3) := if Size(a1) < Size(b2) then (b2, a1) else (a1, b2);
    [a3, b3, c2]
  }

  /** How large the segment at depth p of the stack can be when the first holds n rotations. */
  ghost function Cap(n: nat, p: nat): nat {
    if p == 0 then n else 2 * Cap(n, p - 1) / 3
  }

  ghost function CapOf(n: nat): nat -> nat {
    p => Cap(n, p)
  }

  lemma {:induction false} CapFalls(n: nat, p: nat, q: nat)
    requires p <= q
    ensures Cap(n, q) <= Cap(n, p)
    decreases q
  {
    if p < q { CapFalls(n, p, q - 1); }
  }

  lemma {:induction false} CapMono(n: nat, n': nat, p: nat)
    requires n <= n'
    ensures Cap(n, p) <= Cap(n', p)
  {
    if p > 0 { CapMono(n, n', p - 1); }
  }

  /** A segment too large for the simple sort cannot be deep in the stack. */
  lemma CapTiny(n: nat, p: nat)
    requires n <= 900000 && Cap(n, p) > SMALL_THRESH
    ensures p < 27
  {
    assert Cap(900000, 3) == 266666;
    assert Cap(900000, 6) == 79012;
    assert Cap(900000, 9) == 23410;
    assert Cap(900000, 12) == 6936;
    assert Cap(900000, 15) == 2054;
    assert Cap(900000, 18) == 608;
    assert Cap(900000, 21) == 180;
    assert Cap(900000, 24) == 53;
    assert Cap(900000, 27) == 15;
    CapMono(n, 900000, 27);
    if p >= 27 { CapFalls(n, 27, p); }
  }

  /** A rotation counts for less the more bytes of it are settled. */
  ghost function Weight(g: Seg): nat {
    if Size(g) >= 0 && g.d <= 16 then 4 * (Size(g) * (16 - g.d)) + 1 else 0
  }

  lemma WeightSplit(s1: nat, s2: nat, s3: nat, d: int)
    requires s3 > 0 && d < 16
    ensures s1 * (16 - d) + s2 * (16 - d) + s3 * (15 - d) < (s1 + s2 + s3) * (16 - d)
  {
  }

  lemma CapsFit(s: int, s1: int, s2: int, s3: int, total: nat, p: nat)
    requires s1 >= s2 >= s3 >= 0 && s1 + s2 + s3 == s && SMALL_THRESH < s <= Cap(total, p)
    ensures s1 <= Cap(total, p) && s2 <= Cap(total, p + 1) && s3 <= Cap(total, p + 2)
  {
    assert Cap(total, p + 1) == 2 * Cap(total, p) / 3;
    assert Cap(total, p + 2) == 2 * Cap(total, p + 1) / 3;
  }

  lemma DescendingApart(parts: seq<Seg>, a: Seg, b: Seg, c: Seg)
    requires Descending(parts, a, b, c) && a.hi < b.lo && a.hi < c.lo && c.hi < b.lo
    ensures Apart(parts)
  {
    forall i, j | 0 <= i < j < |parts| ensures parts[i].hi < parts[j].lo || parts[j].hi < parts[i].lo {
      assert (i == 0 && j == 1) || (i == 0 && j == 2) || (i == 1 && j == 2);
    }
  }

  lemma DescendingInside(parts: seq<Seg>, a: Seg, b: Seg, c: Seg, k: nat)
    requires Descending(parts, a, b, c) && k < 3
    ensures parts[k] == a || parts[k] == b || parts[k] == c
    ensures Size(parts[0]) + Size(parts[1]) + Size(parts[2]) == Size(a) + Size(b) + Size(c)
  {
  }

  /** The parts of a partition may replace it on the stack. */
  lemma PartsReplace(top: Seg, n: int, m: int, parts: seq<Seg>, total: nat, p: nat)
    requires top.lo <= n + 1 < m <= top.hi + 1
    requires SMALL_THRESH < Size(top) <= Cap(total, p)
    requires Descending(parts, Seg(top.lo, n, top.d), Seg(m, top.hi, top.d), Seg(n + 1, m - 1, top.d + 1))
    ensures Replaces(parts, top, p, CapOf(total))
  {
    var a, b, c := Seg(top.lo, n, top.d), Seg(m, top.hi, top.d), Seg(n + 1, m - 1, top.d + 1);
    DescendingApart(parts, a, b, c);
    PartsInside(top, n, m, parts);
    CapsFit(Size(top), Size(parts[0]), Size(parts[1]), Size(parts[2]), total, p);
    var cap := CapOf(total);
    assert Size(parts[0]) <= cap(p) && Size(parts[1]) <= cap(p + 1) && Size(parts[2]) <= cap(p + 2);
    forall k {:trigger parts[k]} | 0 <= k < |parts| ensures Size(parts[k]) <= cap(p + k) {
      if k == 0 { } else if k == 1 { } else { assert k == 2; }
    }
  }

  lemma PartsInside(top: Seg, n: int, m: int, parts: seq<Seg>)
    requires top.lo <= n + 1 < m <= top.hi + 1
    requires Descending(parts, Seg(top.lo, n, top.d), Seg(m, top.hi, top.d), Seg(n + 1, m - 1, top.d + 1))
    ensures |parts| == 3 && Size(parts[0]) + Size(parts[1]) + Size(parts[2]) == Size(top)
      && Size(parts[0]) >= Size(parts[1]) >= Size(parts[2])
    ensures forall k {:trigger parts[k]} :: 0 <= k < |parts| ==> top.lo <= parts[k].lo <= parts[k].hi + 1 <= top.hi + 1
  {
    var a, b, c := Seg(top.lo, n, top.d), Seg(m, top.hi, top.d), Seg(n + 1, m - 1, top.d + 1);
    forall k {:trigger parts[k]} | 0 <= k < |parts| ensures top.lo <= parts[k].lo <= parts[k].hi + 1 <= top.hi + 1 {
      DescendingInside(parts, a, b, c, k);
    }
  }

  lemma PartsWork(top: Seg, n: int, m: int, parts: seq<Seg>)
    requires top.lo <= n + 1 < m <= top.hi + 1 && 0 <= top.d <= DEPTH_THRESH
    requires Descending(parts, Seg(top.lo, n, top.d), Seg(m, top.hi, top.d), Seg(n + 1, m - 1, top.d + 1))
    ensures Work(parts, Weight) < Weight(top)
  {
    var a, b, c := Seg(top.lo, n, top.d), Seg(m, top.hi, top.d), Seg(n + 1, m - 1, top.d + 1);
    assert parts == [parts[0], parts[1], parts[2]];
    WorkFew(parts[0], parts[1], parts[2], Weight);
    WeightSplit(Size(a), Size(b), Size(c), top.d);
    assert Weight(parts[0]) + Weight(parts[1]) + Weight(parts[2]) == Weight(a) + Weight(b) + Weight(c);
  }

  lemma DeeperReplaces(top: Seg, total: nat, p: nat)
    requires 0 <= top.d <= DEPTH_THRESH && SMALL_THRESH < Size(top) <= Cap(total, p)
    ensures var parts := [Seg(top.lo, top.hi, top.d + 1)];
            Replaces(parts, top, p, CapOf(total)) && Work(parts, Weight) < Weight(top)
  {
    var g := Seg(top.lo, top.hi, top.d + 1);
    WorkFew(g, g, g, Weight);
    WeightSplit(0, 0, Size(top), top.d);
  }

  /** parts are the outcome of a partition of top, largest first. */
  ghost predicate ThreeParts(top: Seg, parts: seq<Seg>, n: int, m: int) {
    && top.lo <= n + 1 < m <= top.hi + 1
    && Descending(parts, Seg(top.lo, n, top.d), Seg(m, top.hi, top.d), Seg(n + 1, m - 1, top.d + 1))
  }

  /** What a turn of the loop may push in place of top. */
  ghost predicate GoodParts(top: Seg, parts: seq<Seg>) {
    || parts == []
    || (&& 0 <= top.d <= DEPTH_THRESH && Size(top) > SMALL_THRESH
        && (parts == [Seg(top.lo, top.hi, top.d + 1)] || exists n, m :: ThreeParts(top, parts, n, m)))
  }

  lemma GoodPartsReplace(top: Seg, parts: seq<Seg>, total: nat, p: nat)
    requires GoodParts(top, parts) && 0 <= Size(top) <= Cap(total, p) && 0 <= top.d <= 15 && total <= 900000
    ensures Replaces(parts, top, p, CapOf(total)) && Work(parts, Weight) < Weight(top)
    ensures |parts| <= 3 && (parts != [] ==> p < 27)
  {
    if parts != [] {
      CapTiny(total, p);
      if parts == [Seg(top.lo, top.hi, top.d + 1)] {
        DeeperReplaces(top, total, p);
      } else {
        var n, m :| ThreeParts(top, parts, n, m);
        PartsReplace(top, n, m, parts, total, p);
        PartsWork(top, n, m, parts);
      }
    }
  }

  /** Partitions a segment around the median of three of its bytes at depth d. */
  method SplitTop(ptr: array<int>, block: array<int>, lo: int, hi: int, d: nat, ghost b: Block, ghost ranks: seq<int>)
      returns (same: bool, ghost med: int, n: int, m: int)
    requires ptr != block && Doubled(block[..], b) && d <= DEPTH_THRESH && ranks == block[..][d..]
    requires 0 <= lo <= hi < ptr.Length && Agree(ptr[..], b, lo, hi, d)
    modifies ptr
    ensures Rearranged(old(ptr[..]), ptr[..], lo, hi + 1)
    ensures SplitAt(ptr[..], b, ranks, med, lo, n, m, hi, d)
    ensures if same then n == lo - 1 && m == hi + 1 else n + 1 < m
  {
    ghost var was := ptr[..];
    ByteRanks(block[..], b, d);
    var x, y, z := block[ptr[lo] + d], block[ptr[hi] + d], block[ptr[(lo + hi) / 2] + d];
    var median := Med3(x, y, z);
    ghost var at := if median == x then lo else if median == y then hi else (lo + hi) / 2;
    assert ranks[was[at]] == median;
    same, n, m := ThreeWay(ptr, block, d, median, lo, hi, ranks);
    med := median;
    AgreeMoved(was, ptr[..], b, lo, hi, d, lo, hi + 1);
    if !same { SplitShorter(was, ptr[..], ranks, med, lo, n, m, hi, at); }
  }

  lemma EachAgrees(s: seq<int>, b: Block, rank: seq<int>, ranks: seq<int>, med: int, top: Seg, n: int, m: int,
      parts: seq<Seg>)
    requires 0 <= top.d <= DEPTH_THRESH && SplitAt(s, b, ranks, med, top.lo, n, m, top.hi, top.d) && Ranks(rank, b)
    requires ThreeParts(top, parts, n, m)
    ensures AllAgree(s, b, parts)
  {
    var x, y, z := Seg(top.lo, n, top.d), Seg(m, top.hi, top.d), Seg(n + 1, m - 1, top.d + 1);
    MiddleAgrees(s, b, rank, ranks, med, top.lo, n, m, top.hi, top.d);
    forall k {:trigger parts[k]} | 0 <= k < 3
      ensures 0 <= parts[k].d <= 15 && Agree(s, b, parts[k].lo, parts[k].hi, parts[k].d)
    {
      DescendingInside(parts, x, y, z, k);
    }
  }

  lemma PartsAgree(s: seq<int>, b: Block, rank: seq<int>, ranks: seq<int>, med: int, top: Seg, n: int, m: int,
      parts: seq<Seg>)
    requires 0 <= top.d <= DEPTH_THRESH && SplitAt(s, b, ranks, med, top.lo, n, m, top.hi, top.d) && Ranks(rank, b)
    requires ThreeParts(top, parts, n, m)
    ensures AllAgree(s, b, parts) && OrderedExcept(s, F.ByClass(rank), top.lo, top.hi, parts)
  {
    var x, y, z := Seg(top.lo, n, top.d), Seg(m, top.hi, top.d), Seg(n + 1, m - 1, top.d + 1);
    EachAgrees(s, b, rank, ranks, med, top, n, m, parts);
    assert x in parts && y in parts && z in parts;
    SplitOrdered(s, b, rank, ranks, med, top.lo, n, m, top.hi, top.d, parts);
  }

  /** One turn of the loop for a popped segment: sorts it, or partitions it and says what to push. */
  method Turn(ptr: array<int>, block: array<int>, quadrant: array<int>, n: nat, top: Seg, budget0: int,
      ghost b: Block, ghost rank: seq<int>) returns (budget: int, parts: seq<Seg>)
    requires ptr != block && ptr != quadrant && n == |b|
    requires Doubled(block[..], b) && Quadrants(quadrant[..], b) && Ranks(rank, b)
    requires 0 <= top.lo <= top.hi + 1 && top.hi < ptr.Length && Size(top) <= 900000 && 0 <= top.d <= 15
    requires Agree(ptr[..], b, top.lo, top.hi, top.d)
    modifies ptr
    ensures Rearranged(old(ptr[..]), ptr[..], top.lo, top.hi + 1)
    ensures budget >= 0 || parts != [] ==> OrderedExcept(ptr[..], F.ByClass(rank), top.lo, top.hi, parts)
    ensures AllAgree(ptr[..], b, parts) && GoodParts(top, parts)
  {
    var lo, hi, d := top.lo, top.hi, top.d;
    budget, parts := budget0, [];
    if hi - lo < SMALL_THRESH || d > DEPTH_THRESH {
      budget := SimpleSort(ptr, block, quadrant, n, lo, hi, d, budget, b, rank);
      return;
    }
    ghost var ranks := block[..][d..];
    var same, med, n', m := SplitTop(ptr, block, lo, hi, d, b, ranks);
    if same {
      MiddleAgrees(ptr[..], b, rank, ranks, med, lo, n', m, hi, d);
      parts := [Seg(lo, hi, d + 1)];
      AllPending(ptr[..], F.ByClass(rank), parts[0]);
    } else {
      parts := BySize(Seg(lo, n', d), Seg(m, hi, d), Seg(n' + 1, m - 1, d + 1));
      assert ThreeParts(top, parts, n', m);
      PartsAgree(ptr[..], b, rank, ranks, med, top, n', m, parts);
    }
  }

  lemma ByteRanks(block: seq<int>, b: Block, d: nat)
    requires Doubled(block, b) && d <= 15
    ensures forall x {:trigger block[d..][x]} :: 0 <= x < |b| ==> block[d..][x] == At(b, x + d)
  {
  }

  /** Segments elsewhere still agree on their depths after top is rearranged, and so do its parts. */
  lemma AgreeAfter(s: seq<int>, t: seq<int>, b: Block, rest: seq<Seg>, top: Seg, parts: seq<Seg>)
    requires AllAgree(s, b, rest) && AllAgree(t, b, parts) && |s| == |t| && Apart(rest + [top])
    requires 0 <= top.lo <= top.hi + 1 <= |s| && Rearranged(s, t, top.lo, top.hi + 1)
    ensures AllAgree(t, b, rest + parts)
  {
    var now := rest + parts;
    forall k {:trigger now[k]} | 0 <= k < |now|
      ensures 0 <= now[k].d <= 15 && Agree(t, b, now[k].lo, now[k].hi, now[k].d)
    {
      if k < |rest| {
        assert now[k] == rest[k] && (rest + [top])[k] == rest[k] && (rest + [top])[|rest|] == top;
        AgreeMoved(s, t, b, rest[k].lo, rest[k].hi, rest[k].d, top.lo, top.hi + 1);
      } else {
        assert now[k] == parts[k - |rest|];
      }
    }
  }

  /** mainQSort3. The stack never comes near its 100 entries, so assertion 1001 holds. */
  method QSort3(ptr: array<int>, block: array<int>, quadrant: array<int>, n: nat, loSt: int, hiSt: int, dSt: nat,
      budget0: int, ghost b: Block, ghost rank: seq<int>) returns (budget: int)
    requires ptr != block && ptr != quadrant && n == |b| <= 900000 && dSt <= 15
    requires Doubled(block[..], b) && Quadrants(quadrant[..], b) && Ranks(rank, b)
    requires 0 <= loSt <= hiSt < ptr.Length == n && Agree(ptr[..], b, loSt, hiSt, dSt)
    modifies ptr
    ensures Rearranged(old(ptr[..]), ptr[..], loSt, hiSt + 1)
    ensures budget >= 0 ==> Ordered(ptr[..], F.ByClass(rank), loSt, hiSt)
  {
    ghost var was, total, le := ptr[..], hiSt - loSt + 1, F.ByClass(rank);
    budget := budget0;
    var stack := [Seg(loSt, hiSt, dSt)];
    RearrangedSame(was, loSt, hiSt + 1);
    AllPending(was, le, stack[0]);
    while stack != []
      invariant |stack| <= 29 && Tidy(stack, loSt, hiSt, CapOf(total)) && AllAgree(ptr[..], b, stack)
      invariant Rearranged(was, ptr[..], loSt, hiSt + 1)
      invariant OrderedExcept(ptr[..], le, loSt, hiSt, stack)
      decreases Work(stack, Weight)
    {
      assert |stack| < STACK_SIZE - 2;  // 1001
      ghost var now := ptr[..];
      var stop;
      budget, stop, stack := Pop(ptr, block, quadrant, n, stack, budget, loSt, hiSt, total, b, rank);
      RearrangedTrans(was, now, ptr[..], loSt, hiSt + 1);
      if stop { return; }
    }
  }

  /** One segment off the stack, and its parts on. */
  method Pop(ptr: array<int>, block: array<int>, quadrant: array<int>, n: nat, stack0: seq<Seg>, budget0: int,
      ghost lo: int, ghost hi: int, ghost total: nat,
      ghost b: Block, ghost rank: seq<int>) returns (budget: int, stop: bool, stack: seq<Seg>)
    requires ptr != block && ptr != quadrant && n == |b| <= 900000 && total == hi - lo + 1
    requires Doubled(block[..], b) && Quadrants(quadrant[..], b) && Ranks(rank, b) && 0 <= lo <= hi < ptr.Length == n
    requires stack0 != [] && |stack0| <= 29 && Tidy(stack0, lo, hi, CapOf(total)) && AllAgree(ptr[..], b, stack0)
    requires OrderedExcept(ptr[..], F.ByClass(rank), lo, hi, stack0)
    modifies ptr
    ensures Rearranged(old(ptr[..]), ptr[..], lo, hi + 1) && (stop ==> budget < 0)
    ensures !stop ==> |stack| <= 29 && Tidy(stack, lo, hi, CapOf(total)) && AllAgree(ptr[..], b, stack)
    ensures !stop ==>
      OrderedExcept(ptr[..], F.ByClass(rank), lo, hi, stack) && Work(stack, Weight) < Work(stack0, Weight)
  {
    var top, rest := stack0[|stack0| - 1], stack0[..|stack0| - 1];
    assert rest + [top] == stack0;
    ghost var now := ptr[..];
    var parts;
    budget, parts := Turn(ptr, block, quadrant, n, top, budget0, b, rank);
    RearrangedWider(now, ptr[..], top.lo, top.hi + 1, lo, hi + 1);
    stop, stack := parts == [] && budget < 0, [];
    if stop { return; }
    SplitSegment(now, ptr[..], F.ByClass(rank), lo, hi, rest, top, parts);
    AgreeAfter(now, ptr[..], b, rest, top, parts);
    GoodPartsReplace(top, parts, total, |rest|);
    StackAfter(rest, top, parts, lo, hi, CapOf(total), Weight);
    stack := rest + parts;
  }
}
