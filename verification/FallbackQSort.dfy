/** fallbackSimpleSort and fallbackQSort3: sort a stretch of fmap by the classes in eclass. */
module FallbackQSort {
  import opened Segments
  import opened Partition

  /** The order the sort works with: smaller class first. */
  ghost function ByClass(eclass: seq<int>): (int, int) -> bool {
    (x, y) => 0 <= x < |eclass| && 0 <= y < |eclass| && eclass[x] <= eclass[y]
  }

  lemma InsertedOrdered(was: seq<int>, now: seq<int>, key: seq<int>, i: int, m: int, hi: int)
    requires |was| == |now| && 0 <= i <= m <= hi < |was| && Indices(was, |key|)
    requires Ordered(was, ByClass(key), i + 1, hi)
    requires forall k {:trigger now[k]} :: i <= k < m ==> now[k] == was[k + 1]
    requires forall k {:trigger was[k]} :: i < k <= m ==> key[was[k]] < key[was[i]]
    requires now[m] == was[i]
    requires forall k {:trigger now[k]} :: m < k <= hi ==> now[k] == was[k]
    requires m < hi ==> key[was[i]] <= key[was[m + 1]]
    ensures Ordered(now, ByClass(key), i, hi)
  {
  }

  /** cur is was with the value of position i moved right to m, in steps of h. */
  ghost predicate Slid(was: seq<int>, cur: seq<int>, i: int, m: int, hi: int, h: int) {
    && |cur| == |was| && 0 <= i <= m <= hi < |was| && cur[m] == was[i]
    && Rearranged(was, cur, i, hi + 1)
    && (forall k {:trigger cur[k]} :: m < k <= hi ==> cur[k] == was[k])
    && (h == 1 ==> forall k {:trigger cur[k]} :: i <= k < m ==> cur[k] == was[k + 1])
  }

  lemma SlidMore(was: seq<int>, cur: seq<int>, i: int, m: int, hi: int, h: int)
    requires Slid(was, cur, i, m, hi, h) && h > 0 && m + h <= hi
    ensures Slid(was, Swap(cur, m, m + h), i, m + h, hi, h)
  {
    RearrangedSwap(was, cur, i, hi + 1, m, m + h);
  }

  /** Slides the smaller classes right of i left by h, leaving a hole at m for the value at i. */
  method Slide(fmap: array<int>, eclass: array<int>, hi: int, i: int, h: int) returns (m: int, ghost cur: seq<int>)
    requires fmap != eclass && 0 <= i <= hi < fmap.Length && h > 0 && Indices(fmap[..], eclass.Length)
    modifies fmap
    ensures Slid(old(fmap[..]), cur, i, m, hi, h) && fmap[..] == cur[m := fmap[m]]
    ensures h == 1 ==> forall k {:trigger old(fmap[k])} :: i < k <= m ==> eclass[old(fmap[k])] < eclass[old(fmap[i])]
    ensures h == 1 && m < hi ==> eclass[old(fmap[i])] <= eclass[old(fmap[m + 1])]
  {
    ghost var was := fmap[..];
    var ecTmp := eclass[fmap[i]];
    m, cur := i, was;
    RearrangedSame(was, i, hi + 1);
    while m + h <= hi && ecTmp > eclass[fmap[m + h]]
      invariant Slid(was, cur, i, m, hi, h) && fmap[..] == cur[m := fmap[m]]
      invariant h == 1 ==> forall k {:trigger was[k]} :: i < k <= m ==> eclass[was[k]] < ecTmp
    {
      var j := m + h;
      assert fmap[j] == cur[j] == was[j];
      SlidMore(was, cur, i, m, hi, h);
      MoveHole(fmap, m, j, cur);
      m, cur := j, Swap(cur, m, j);
    }
    if m + h <= hi { assert fmap[m + h] == cur[m + h] == was[m + h]; }
  }

  /** Moves fmap[i] right past smaller classes, in steps of h. */
  method Insert(fmap: array<int>, eclass: array<int>, lo: int, hi: int, i: int, h: int)
    requires fmap != eclass && 0 <= lo <= i && i <= hi < fmap.Length && h > 0
    requires Indices(fmap[..], eclass.Length)
    modifies fmap
    ensures Rearranged(old(fmap[..]), fmap[..], i, hi + 1)
    ensures h == 1 && Ordered(old(fmap[..]), ByClass(eclass[..]), i + 1, hi) ==>
      Ordered(fmap[..], ByClass(eclass[..]), i, hi)
  {
    ghost var was, key := fmap[..], eclass[..];
    var tmp := fmap[i];
    var m, cur := Slide(fmap, eclass, hi, i, h);
    fmap[m] := tmp;
    assert fmap[..] == cur;
    if h == 1 && Ordered(was, ByClass(key), i + 1, hi) {
      InsertedOrdered(was, cur, key, i, m, hi);
    }
  }

  /** One pass of insertions from right to left. */
  method InsertAll(fmap: array<int>, eclass: array<int>, lo: int, hi: int, h: int)
    requires fmap != eclass && 0 <= lo <= hi + 1 && hi < fmap.Length && h > 0
    requires Indices(fmap[..], eclass.Length)
    modifies fmap
    ensures Rearranged(old(fmap[..]), fmap[..], lo, hi + 1)
    ensures h == 1 ==> Ordered(fmap[..], ByClass(eclass[..]), lo, hi)
  {
    ghost var was, key := fmap[..], eclass[..];
    RearrangedSame(was, lo, hi + 1);
    var i := hi - h;
    while i >= lo
      invariant lo - 1 <= i || i == hi - h
      invariant i <= hi - h
      invariant Rearranged(was, fmap[..], lo, hi + 1)
      invariant h == 1 ==> Ordered(fmap[..], ByClass(key), if i + 1 < lo then lo else i + 1, hi)
      decreases i - lo
    {
      ghost var now := fmap[..];
      RearrangedIndices(was, now, lo, hi + 1, eclass.Length);
      Insert(fmap, eclass, lo, hi, i, h);
      RearrangedWider(now, fmap[..], i, hi + 1, lo, hi + 1);
      RearrangedTrans(was, now, fmap[..], lo, hi + 1);
      i := i - 1;
    }
  }

  /** fallbackSimpleSort. */
  method SimpleSort(fmap: array<int>, eclass: array<int>, lo: int, hi: int)
    requires fmap != eclass && 0 <= lo <= hi + 1 && hi < fmap.Length
    requires Indices(fmap[..], eclass.Length)
    modifies fmap
    ensures Rearranged(old(fmap[..]), fmap[..], lo, hi + 1)
    ensures Ordered(fmap[..], ByClass(eclass[..]), lo, hi)
  {
    ghost var was := fmap[..];
    RearrangedSame(was, lo, hi + 1);
    if lo == hi { return; }
    if hi - lo > 3 {
      InsertAll(fmap, eclass, lo, hi, 4);
    }
    ghost var now := fmap[..];
    RearrangedIndices(was, now, lo, hi + 1, eclass.Length);
    InsertAll(fmap, eclass, lo, hi, 1);
    RearrangedTrans(was, now, fmap[..], lo, hi + 1);
  }

  const SMALL_THRESH := 10
  const STACK_SIZE := 100

  /** How large the segment at depth p of the stack can be when the first holds n values. */
  ghost function Cap(n: nat, p: nat): nat {
    if p == 0 then n else Cap(n, p - 1) / 2
  }

  ghost function CapOf(n: nat): nat -> nat {
    p => Cap(n, p)
  }

  ghost function Weight(g: Seg): nat {
    if Size(g) >= 0 then 2 * Size(g) + 1 else 0
  }

  lemma {:induction false} CapFalls(n: nat, p: nat, q: nat)
    requires p <= q
    ensures Cap(n, q) <= Cap(n, p)
    decreases q
  {
    if p < q { CapFalls(n, p, q - 1); }
  }

  lemma {:induction false} CapMono(n: nat, n': nat, p: nat)
    requires n <= n'
    ensures Cap(n, p) <= Cap(n', p)
  {
    if p > 0 { CapMono(n, n', p - 1); }
  }

  /** A segment too large for the simple sort cannot be deep in the stack. */
  lemma CapTiny(n: nat, p: nat)
    requires n <= 900000 && Cap(n, p) > SMALL_THRESH
    ensures p < 17
  {
    assert Cap(900000, 3) == 112500;
    assert Cap(900000, 6) == 14062;
    assert Cap(900000, 9) == 1757;
    assert Cap(900000, 12) == 219;
    assert Cap(900000, 15) == 27;
    assert Cap(900000, 17) == 6;
    CapMono(n, 900000, 17);
    if p >= 17 { CapFalls(n, 17, p); }
  }

  lemma SplitOrdered(s: seq<int>, ranks: seq<int>, med: int, lo: int, n: int, m: int, hi: int)
    requires Split(s, ranks, med, lo, n, m, hi)
    ensures OrderedExcept(s, ByClass(ranks), lo, hi, [Seg(lo, n), Seg(m, hi)])
    ensures OrderedExcept(s, ByClass(ranks), lo, hi, [Seg(m, hi), Seg(lo, n)])
  {
    var a, b := [Seg(lo, n), Seg(m, hi)], [Seg(m, hi), Seg(lo, n)];
    forall i, j {:trigger s[i], s[j]} | lo <= i < j <= hi && !ByClass(ranks)(s[i], s[j])
      ensures Together(a, i, j) && Together(b, i, j)
    {
      if j <= n {
        assert a[0].lo <= i && j <= a[0].hi && b[1].lo <= i && j <= b[1].hi;
      } else {
        assert m <= i;
        assert a[1].lo <= i && j <= a[1].hi && b[0].lo <= i && j <= b[0].hi;
      }
    }
  }

  /** What pushing the given parts of top may look like: nothing, or the larger part and then
      the smaller one. */
  ghost predicate GoodParts(top: Seg, parts: seq<Seg>) {
    || parts == []
    || (&& |parts| == 2 && Size(parts[1]) <= Size(parts[0]) && Size(parts[0]) + Size(parts[1]) < Size(top)
        && top.lo <= parts[0].lo <= parts[0].hi + 1 <= top.hi + 1
        && top.lo <= parts[1].lo <= parts[1].hi + 1 <= top.hi + 1
        && (parts[0].hi < parts[1].lo || parts[1].hi < parts[0].lo)
        && Size(top) > SMALL_THRESH)
  }

  /** One turn of the loop for a popped segment: sorts it, or partitions it and says what to push. */
  method Turn(fmap: array<int>, eclass: array<int>, top: Seg, r0: nat) returns (r: nat, parts: seq<Seg>)
    requires fmap != eclass && 0 <= top.lo <= top.hi + 1 && top.hi < fmap.Length
    requires Indices(fmap[..], eclass.Length)
    modifies fmap
    ensures Rearranged(old(fmap[..]), fmap[..], top.lo, top.hi + 1)
    ensures OrderedExcept(fmap[..], ByClass(eclass[..]), top.lo, top.hi, parts)
    ensures GoodParts(top, parts)
  {
    var lo, hi := top.lo, top.hi;
    r, parts := r0, [];
    if hi - lo < SMALL_THRESH {
      SimpleSort(fmap, eclass, lo, hi);
      return;
    }
    r := (r * 7621 + 1) % 32768;
    var r3 := r % 3;
    var x := if r3 == 0 then lo else if r3 == 1 then (lo + hi) / 2 else hi;
    var med := eclass[fmap[x]];
    ghost var was, key := fmap[..], eclass[..];
    assert key == eclass[0..];
    var same, n, m := ThreeWay(fmap, eclass, 0, med, lo, hi, key);
    SplitOrdered(fmap[..], key, med, lo, n, m, hi);
    if same {
      return;
    }
    SplitShorter(was, fmap[..], key, med, lo, n, m, hi, x);
    if n - lo > hi - m {
      parts := [Seg(lo, n), Seg(m, hi)];
    } else {
      parts := [Seg(m, hi), Seg(lo, n)];
    }
  }

  lemma GoodPartsReplace(top: Seg, parts: seq<Seg>, n: nat, p: nat)
    requires GoodParts(top, parts) && 0 <= Size(top) <= Cap(n, p) && n <= 900000
    ensures Replaces(parts, top, p, CapOf(n)) && Work(parts, Weight) < Weight(top)
    ensures parts != [] ==> p < 17
  {
    if parts != [] {
      assert parts == [parts[0], parts[1]];
      WorkFew(parts[0], parts[1], top, Weight);
      assert Cap(n, p + 1) == Cap(n, p) / 2;
      CapTiny(n, p);
    }
  }

  /** fallbackQSort3. The stack never comes near its 100 entries, so assertion 1004 holds. */
  method QSort3(fmap: array<int>, eclass: array<int>, loSt: int, hiSt: int)
    requires fmap != eclass && 0 <= loSt <= hiSt < fmap.Length && hiSt - loSt < 900000
    requires Indices(fmap[..], eclass.Length)
    modifies fmap
    ensures Rearranged(old(fmap[..]), fmap[..], loSt, hiSt + 1)
    ensures Ordered(fmap[..], ByClass(eclass[..]), loSt, hiSt)
  {
    ghost var was, key, total := fmap[..], eclass[..], hiSt - loSt + 1;
    var r := 0;
    var stack := [Seg(loSt, hiSt)];
    RearrangedSame(was, loSt, hiSt + 1);
    AllPending(was, ByClass(key), Seg(loSt, hiSt));
    while stack != []
      invariant |stack| <= 18 && Tidy(stack, loSt, hiSt, CapOf(total))
      invariant Rearranged(was, fmap[..], loSt, hiSt + 1) && Indices(fmap[..], |key|)
      invariant OrderedExcept(fmap[..], ByClass(key), loSt, hiSt, stack)
      decreases Work(stack, Weight)
    {
      assert |stack| < STACK_SIZE - 1;  // 1004
      var top, rest := stack[|stack| - 1], stack[..|stack| - 1];
      assert rest + [top] == stack;
      ghost var now := fmap[..];
      var parts;
      r, parts := Turn(fmap, eclass, top, r);
      SplitSegment(now, fmap[..], ByClass(key), loSt, hiSt, rest, top, parts);
      RearrangedWider(now, fmap[..], top.lo, top.hi + 1, loSt, hiSt + 1);
      RearrangedTrans(was, now, fmap[..], loSt, hiSt + 1);
      RearrangedIndices(was, fmap[..], loSt, hiSt + 1, |key|);
      GoodPartsReplace(top, parts, total, |rest|);
      StackAfter(rest, top, parts, loSt, hiSt, CapOf(total), Weight);
      stack := rest + parts;
    }
  }
}
