/** The first half of mainSort: the radix sort of all rotations on their first two bytes, and the
    order in which the big buckets are processed. */
module TwoByteSort {
  import opened Permutations
  import opened Counting
  import opened Rotations
  import opened Segments
  import opened Partition
  import opened MainCompare
  import C = CopyPhase
  import F = FallbackQSort
  import M = MainQSort

  /** The first two bytes of a rotation as one number. */
  function Pair(b: Block, i: nat): (r: nat)
    requires i < |b|
    ensures r < 65536 && r / 256 == b[i] && r % 256 == b[C.Succ(i, |b|)]
  {
    var hi: nat, lo: nat := b[i], b[C.Succ(i, |b|)];
    256 * hi + lo
  }

  function Pairs(b: Block): (r: seq<nat>)
    ensures |r| == |b| && Keys(r, 65536) && forall i {:trigger r[i]} :: 0 <= i < |b| ==> r[i] == Pair(b, i)
  {
    seq(|b|, i requires 0 <= i < |b| => Pair(b, i))
  }

  /** j = (j >> 8) | (block[i] << 8): the pair at i from the pair at i + 1. */
  method NextPair(j: int, c: int, ghost b: Block, ghost i: nat) returns (r: int)
    requires i < |b| && c == b[i] && 0 <= j < 65536 && j / 256 == (if i + 1 == |b| then b[0] else b[i + 1])
    ensures r == Pair(b, i) && 0 <= r < 65536 && r / 256 == b[i]
  {
    r := j / 256 + 256 * c;
  }

  /** Counts the pairs and clears the quadrants, from the end of the block. */
  method CountPairs(block: array<int>, quadrant: array<int>, ftab: array<int>, n: nat, ghost b: Block,
      ghost l: seq<nat>)
    requires n == |b| <= block.Length && block[..n] == b && n + N_OVERSHOOT <= quadrant.Length
    requires ftab.Length == 65537 && ftab != block && ftab != quadrant && block != quadrant && l == Pairs(b)
    modifies ftab, quadrant
    ensures forall c {:trigger ftab[c]} :: 0 <= c < 65536 ==> ftab[c] == Occ(l, c, n)
    ensures ftab[65536] == 0
    ensures forall k {:trigger quadrant[k]} :: 0 <= k < n ==> quadrant[k] == 0
  {
    assert forall i {:trigger block[i]} :: 0 <= i < n ==> block[i] == block[..n][i] == b[i];
    for i := 0 to 65537
      invariant forall c {:trigger ftab[c]} :: 0 <= c < i ==> ftab[c] == 0
      modifies ftab
    {
      ftab[i] := 0;
    }
    var i, j := n - 1, 256 * block[0];
    while i >= 0
      invariant -1 <= i < n
      invariant 0 <= j < 65536 && j / 256 == if i + 1 == n then b[0] else b[i + 1]
      invariant forall c {:trigger ftab[c]} :: 0 <= c < 65536 ==> ftab[c] == Occ(l, c, n) - Occ(l, c, i + 1)
      invariant ftab[65536] == 0
      invariant forall k {:trigger quadrant[k]} :: i < k < n ==> quadrant[k] == 0
    {
      quadrant[i] := 0;
      j := NextPair(j, block[i], b, i);
      CountPair(ftab, j, n, l, i);
      i := i - 1;
    }
  }

  method CountPair(ftab: array<int>, j: int, n: nat, ghost l: seq<nat>, ghost i: nat)
    requires ftab.Length == 65537 && i < |l| == n && 0 <= j < 65536 && j == l[i]
    requires forall c {:trigger ftab[c]} :: 0 <= c < 65536 ==> ftab[c] == Occ(l, c, n) - Occ(l, c, i + 1)
    modifies ftab
    ensures forall c {:trigger ftab[c]} :: 0 <= c < 65536 ==> ftab[c] == Occ(l, c, n) - Occ(l, c, i)
    ensures ftab[65536] == old(ftab[65536])
  {
    ftab[j] := ftab[j] + 1;
  }

  /** Repeats the first bytes after the end of the block, with quadrant 0. */
  method CopyOvershoot(block: array<int>, quadrant: array<int>, n: nat, ghost b: Block)
    requires block != quadrant && n + N_OVERSHOOT <= block.Length && n + N_OVERSHOOT <= quadrant.Length
    requires N_OVERSHOOT < n == |b| && block[..n] == b
    requires forall k {:trigger quadrant[k]} :: 0 <= k < n ==> quadrant[k] == 0
    modifies block, quadrant
    ensures block[..n] == b && Doubled(block[..], b) && Quadrants(quadrant[..], b)
  {
    assert forall i {:trigger block[i]} :: 0 <= i < n ==> block[i] == block[..n][i] == b[i];
    for i := 0 to N_OVERSHOOT
      invariant forall k {:trigger block[k]} :: 0 <= k < n ==> block[k] == b[k]
      invariant forall k {:trigger block[k]} :: n <= k < n + i ==> block[k] == b[k - n]
      invariant forall k {:trigger quadrant[k]} :: 0 <= k < n + i ==> quadrant[k] == 0
    {
      block[n + i] := block[i];
      quadrant[n + i] := 0;
    }
    forall i {:trigger block[..][i]} | 0 <= i < n + N_OVERSHOOT ensures block[..][i] == At(b, i) { WrapOnce(i, n); }
  }

  method SumCounts(ftab: array<int>, n: nat, ghost l: seq<nat>)
    requires ftab.Length == 65537 && n == |l| && ftab[65536] == 0 && Keys(l, 65536)
    requires forall c {:trigger ftab[c]} :: 0 <= c < 65536 ==> ftab[c] == Occ(l, c, n)
    modifies ftab
    ensures forall c {:trigger ftab[c]} :: 0 <= c < 65536 ==> ftab[c] == Less(l, c + 1, n)
    ensures ftab[65536] == Less(l, 65536, n)
  {
    for i := 1 to 65537
      invariant forall c {:trigger ftab[c]} :: 0 <= c < i && c < 65536 ==> ftab[c] == Less(l, c + 1, n)
      invariant forall c {:trigger ftab[c]} :: i <= c < 65536 ==> ftab[c] == Occ(l, c, n)
      invariant ftab[65536] == if i == 65537 then Less(l, 65536, n) else 0
    {
      ftab[i] := ftab[i] + ftab[i - 1];
    }
  }

  /** The last free slot of small bucket s, for rotation i. */
  method TakeLast(ftab: array<int>, s: int, ghost l: seq<nat>, ghost i: nat) returns (j: int)
    requires ftab.Length == 65537 && i < |l| && 0 <= s < 65536 && s == l[i]
    requires forall c {:trigger ftab[c]} :: 0 <= c < 65536 ==> ftab[c] == Less(l, c, |l|) + Occ(l, c, i + 1)
    modifies ftab
    ensures j == T(l, i) && ftab[65536] == old(ftab[65536])
    ensures forall c {:trigger ftab[c]} :: 0 <= c < 65536 ==> ftab[c] == Less(l, c, |l|) + Occ(l, c, i)
  {
    j := ftab[s] - 1;
    ftab[s] := j;
  }

  /** Fills every small bucket from its end, going down the block. */
  method Distribute(block: array<int>, ptr: array<int>, ftab: array<int>, n: nat, ghost b: Block, ghost l: seq<nat>)
    requires n == |b| == ptr.Length && block.Length >= n && block[..n] == b && l == Pairs(b)
    requires ftab.Length == 65537 && block != ptr && ftab != ptr && ftab != block
    requires forall c {:trigger ftab[c]} :: 0 <= c < 65536 ==> ftab[c] == Less(l, c + 1, n)
    requires ftab[65536] == Less(l, 65536, n)
    modifies ptr, ftab
    ensures forall c {:trigger ftab[c]} :: 0 <= c <= 65536 ==> ftab[c] == Less(l, c, n)
    ensures forall i {:trigger T(l, i)} :: 0 <= i < n ==> 0 <= T(l, i) < n && ptr[T(l, i)] == i
  {
    assert forall i {:trigger block[i]} :: 0 <= i < n ==> block[i] == block[..n][i] == b[i];
    var i, s := n - 1, 256 * block[0];
    while i >= 0
      invariant -1 <= i < n
      invariant 0 <= s < 65536 && s / 256 == if i + 1 == n then b[0] else b[i + 1]
      invariant forall c {:trigger ftab[c]} :: 0 <= c < 65536 ==> ftab[c] == Less(l, c, n) + Occ(l, c, i + 1)
      invariant ftab[65536] == Less(l, 65536, n)
      invariant forall k {:trigger T(l, k)} :: i < k < n ==> 0 <= T(l, k) < n && ptr[T(l, k)] == k
    {
      s := NextPair(s, block[i], b, i);
      var j := TakeLast(ftab, s, l, i);
      TBounds(l, i);
      forall k | i < k < n ensures T(l, k) != j { TApart(l, i, k); }
      ptr[j] := i;
      i := i - 1;
    }
  }

  lemma TApart(l: seq<nat>, i: nat, k: nat)
    requires i < k < |l|
    ensures T(l, i) != T(l, k)
  {
    if l[i] <= l[k] { TOrder(l, i, k); } else { TOrder(l, k, i); }
  }

  lemma FromSlots(l: seq<nat>, ptr: seq<int>)
    requires |ptr| == |l| && forall i {:trigger T(l, i)} :: 0 <= i < |l| ==> 0 <= T(l, i) < |l| && ptr[T(l, i)] == i
    ensures IsTInverse(l, ptr)
  {
    forall p | 0 <= p < |l| ensures 0 <= ptr[p] < |l| && T(l, ptr[p]) == p {
      var i := THits(l, p);
    }
  }

  /** The whole radix sort: ptr is the stable order of the pairs, ftab[c] the start of small bucket
      c, the block has its overshoot, and all quadrants are 0. */
  method RadixSort(ptr: array<int>, block: array<int>, quadrant: array<int>, ftab: array<int>, n: nat, ghost b: Block)
    requires N_OVERSHOOT < n == |b| == ptr.Length && block.Length >= n + N_OVERSHOOT && block[..n] == b
    requires n + N_OVERSHOOT <= quadrant.Length && ftab.Length == 65537
    requires ptr != block && ptr != quadrant && ptr != ftab && block != quadrant && block != ftab && quadrant != ftab
    modifies ptr, block, quadrant, ftab
    ensures block[..n] == b && Doubled(block[..], b) && Quadrants(quadrant[..], b)
    ensures IsTInverse(Pairs(b), ptr[..])
    ensures forall c {:trigger ftab[c]} :: 0 <= c <= 65536 ==> ftab[c] == Less(Pairs(b), c, n)
  {
    ghost var l := Pairs(b);
    CountPairs(block, quadrant, ftab, n, b, l);
    CopyOvershoot(block, quadrant, n, b);
    SumCounts(ftab, n, l);
    Distribute(block, ptr, ftab, n, b, l);
    FromSlots(l, ptr[..]);
  }

  // ---- the running order ----

  /** freq[c] is BIGFREQ(c): how many rotations start with byte c. */
  ghost predicate BigFreqs(ftab: seq<int>, freq: seq<int>) {
    && |ftab| == 65537 && |freq| == 256
    && forall c {:trigger freq[c]} :: 0 <= c < 256 ==> freq[c] == ftab[256 * (c + 1)] - ftab[256 * c]
  }

  /** BIGFREQ(a) > BIGFREQ(c). */
  method Fuller(ftab: array<int>, a: int, c: int, ghost freq: seq<int>) returns (r: bool)
    requires ftab.Length == 65537 && 0 <= a < 256 && 0 <= c < 256 && BigFreqs(ftab[..], freq)
    ensures r == (freq[a] > freq[c])
  {
    r := ftab[256 * (a + 1)] - ftab[256 * a] > ftab[256 * (c + 1)] - ftab[256 * c];
  }

  /** The buckets from m to i that were fuller than the one at i have moved up by h. Kept closed where it is only passed
      on. */
  ghost predicate Sliding(was: seq<int>, cur: seq<int>, i: int, m: int, h: int, freq: seq<int>) {
    forall u {:trigger Shut(was, u)} :: Shut(was, u) ==> SlidingNow(was, cur, i, m, h, freq, u)
  }

  ghost predicate SlidingNow(was: seq<int>, cur: seq<int>, i: int, m: int, h: int, freq: seq<int>, u: int) {
    && |was| == |freq| == 256 && Indices(was, 256) && M.Slid(was, cur, 0, 255, i, m, h)
    && (h == 1 ==> forall k {:trigger was[k]} :: m <= k < i ==> freq[was[k]] >= freq[was[i]])
  }

  ghost predicate Shut(was: seq<int>, u: int) { true }

  lemma SlidingFirst(was: seq<int>, i: int, h: int, freq: seq<int>)
    requires |was| == |freq| == 256 && Indices(was, 256) && 0 <= i < 256
    ensures Sliding(was, was, i, i, h, freq)
  {
    RearrangedSame(was, 0, 256);
  }

  lemma SlidingAt(was: seq<int>, cur: seq<int>, i: int, m: int, h: int, freq: seq<int>, j: int)
    requires Sliding(was, cur, i, m, h, freq) && 0 <= j < m
    ensures |was| == |cur| == |freq| == 256 && 0 <= m <= i < 256 && cur[j] == was[j] && 0 <= was[j] < 256
      && 0 <= was[i] < 256
  {
    assert Shut(was, 0);
  }

  lemma SlidingOn(was: seq<int>, cur: seq<int>, i: int, m: int, h: int, freq: seq<int>)
    requires Sliding(was, cur, i, m, h, freq) && 0 < h <= m && m < |was| && |freq| == 256 && 0 <= was[m - h] < 256
      && 0 <= i < |was| && 0 <= was[i] < 256
    requires freq[was[m - h]] >= freq[was[i]]
    ensures |cur| == 256 && m < 256 && Sliding(was, Swap(cur, m, m - h), i, m - h, h, freq)
  {
    assert Shut(was, 0);
    M.SlidMore(was, cur, 0, 255, i, m, h);
  }

  /** Moves the fuller buckets left of i up by h, leaving a hole at m for the one at i. */
  method SlideBucket(order: array<int>, ftab: array<int>, i: int, h: int, ghost freq: seq<int>)
      returns (m: int, ghost cur: seq<int>)
    requires order != ftab && order.Length == 256 && ftab.Length == 65537 && 0 < h <= i < 256 && Indices(order[..], 256)
    requires BigFreqs(ftab[..], freq)
    modifies order
    ensures M.Slid(old(order[..]), cur, 0, 255, i, m, h) && order[..] == cur[m := order[m]]
    ensures h == 1 ==> forall k {:trigger old(order[k])} :: m <= k < i ==> freq[old(order[k])] >= freq[old(order[i])]
    ensures h == 1 && 0 < m ==> freq[old(order[m - 1])] <= freq[old(order[i])]
  {
    ghost var was := order[..];
    var v := order[i];
    m, cur := i, was;
    SlidingFirst(was, i, h, freq);
    while m > h - 1
      invariant 0 <= m <= i && |cur| == 256 && Sliding(was, cur, i, m, h, freq) && order[..] == cur[m := order[m]]
      decreases m
    {
      var j := m - h;
      SlidingAt(was, cur, i, m, h, freq, j);
      var more := SlideOne(order, ftab, m, j, v, freq, cur);
      if !more { break; }
      SlidingOn(was, cur, i, m, h, freq);
      m, cur := j, Swap(cur, m, j);
    }
    assert Shut(was, 0);
  }

  /** Moves the bucket at j to the hole at m if it is fuller than v. */
  method SlideOne(order: array<int>, ftab: array<int>, m: int, j: int, v: int, ghost freq: seq<int>,
      ghost cur: seq<int>)
      returns (more: bool)
    requires order != ftab && order.Length == |cur| == 256 && ftab.Length == 65537 && 0 <= m < 256 && 0 <= j < 256
      && m != j
    requires BigFreqs(ftab[..], freq) && order[..] == cur[m := order[m]] && 0 <= cur[j] < 256 && 0 <= v < 256
    modifies order
    ensures more <==> freq[cur[j]] > freq[v]
    ensures if more then order[..] == Swap(cur, m, j)[j := order[j]] else order[..] == old(order[..])
  {
    assert order[j] == order[..][j] == cur[j];
    more := Fuller(ftab, order[j], v, freq);
    if more { MoveHole(order, m, j, cur); }
  }

  /** One insertion with gap h. */
  method InsertBucket(order: array<int>, ftab: array<int>, i: int, h: int, ghost freq: seq<int>)
    requires order != ftab && order.Length == 256 && ftab.Length == 65537 && 0 < h <= i < 256 && Indices(order[..], 256)
    requires BigFreqs(ftab[..], freq)
    modifies order
    ensures Rearranged(old(order[..]), order[..], 0, 256)
    ensures h == 1 && Ordered(old(order[..]), F.ByClass(freq), 0, i - 1) ==> Ordered(order[..], F.ByClass(freq), 0, i)
  {
    ghost var was := order[..];
    var vv := order[i];
    var j, cur := SlideBucket(order, ftab, i, h, freq);
    order[j] := vv;
    assert order[..] == cur;
    if h == 1 && Ordered(was, F.ByClass(freq), 0, i - 1) {
      M.InsertedOrdered(was, cur, freq, 0, j, i);
    }
  }

  method BucketPass(order: array<int>, ftab: array<int>, h: int, ghost freq: seq<int>)
    requires order != ftab && order.Length == 256 && ftab.Length == 65537 && 0 < h < 256 && Indices(order[..], 256)
    requires BigFreqs(ftab[..], freq)
    modifies order
    ensures Rearranged(old(order[..]), order[..], 0, 256) && Indices(order[..], 256)
    ensures h == 1 ==> Ordered(order[..], F.ByClass(freq), 0, 255)
  {
    ghost var was := order[..];
    RearrangedSame(was, 0, 256);
    for i := h to 256
      invariant Rearranged(was, order[..], 0, 256) && Indices(order[..], 256)
      invariant h == 1 ==> Ordered(order[..], F.ByClass(freq), 0, i - 1)
    {
      ghost var now := order[..];
      InsertBucket(order, ftab, i, h, freq);
      RearrangedIndices(now, order[..], 0, 256, 256);
      RearrangedTrans(was, now, order[..], 0, 256);
    }
  }

  /** The shell sort of the 256 big buckets, least full first. */
  method RunningOrder(ftab: array<int>) returns (order: array<int>, ghost freq: seq<int>)
    requires ftab.Length == 65537
    ensures fresh(order) && order.Length == 256 && IsPerm(order[..])
    ensures Ordered(order[..], F.ByClass(freq), 0, 255) && BigFreqs(ftab[..], freq)
  {
    freq := seq(256, c requires 0 <= c < 256 reads ftab => ftab[256 * (c + 1)] - ftab[256 * c]);
    order := new int[256](i => i);
    ghost var was := order[..];
    RearrangedSame(was, 0, 256);
    assert IsPerm(was);
    var h := 4;
    while h <= 256
      invariant h in {4, 13, 40, 121, 364}
      decreases 364 - h
    {
      h := 3 * h + 1;
    }
    assert h == 364;
    while true
      invariant h in {364, 121, 40, 13, 4}
      invariant fresh(order) && Rearranged(was, order[..], 0, 256) && Indices(order[..], 256)
      decreases h
    {
      h := h / 3;
      ghost var now := order[..];
      BucketPass(order, ftab, h, freq);
      RearrangedTrans(was, now, order[..], 0, 256);
      if h == 1 { break; }
    }
    RearrangedAll(was, order[..], 0, 256);
    PermMultiset(was, order[..]);
  }
}
