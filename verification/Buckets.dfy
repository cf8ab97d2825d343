/** One refinement round of fallbackSort, seen as integers: ec gives the bucket each position is
    in, key the class to sort by inside the bucket. */
module Buckets {
  import opened Segments
  import opened Partition
  import Q = FallbackQSort

  ghost predicate Le2(ec: seq<int>, key: seq<int>, p: int, q: int)
    requires 0 <= p < |ec| == |key| && 0 <= q < |ec|
  {
    ec[p] < ec[q] || (ec[p] == ec[q] && key[p] <= key[q])
  }

  ghost predicate Same2(ec: seq<int>, key: seq<int>, p: int, q: int)
    requires 0 <= p < |ec| == |key| && 0 <= q < |ec|
  {
    ec[p] == ec[q] && key[p] == key[q]
  }

  /** Everything before s is refined; from s on, where a bucket starts, nothing has changed. */
  ghost predicate Refined(f: seq<int>, ec: seq<int>, key: seq<int>, bh: seq<bool>, s: int) {
    && |f| == |ec| == |key| < |bh| && 0 <= s <= |f| && Indices(f, |f|) && bh[0] && bh[s]
    && (forall i, j {:trigger f[i], f[j]} :: 0 <= i < j < |f| ==> ec[f[i]] <= ec[f[j]])
    && (forall i, j {:trigger f[i], f[j]} :: 0 <= i < j < s ==> Le2(ec, key, f[i], f[j]))
    && (forall i {:trigger bh[i]} :: 0 < i < s ==> (bh[i] <==> !Same2(ec, key, f[i - 1], f[i])))
    && (forall i {:trigger bh[i]} :: 0 < i < |f| && s <= i ==> (bh[i] <==> ec[f[i - 1]] != ec[f[i]]))
  }

  /** Bits s..l are set and bits l+1..r are clear: l..r is the next bucket to split. */
  ghost predicate NextBucket(bh: seq<bool>, s: int, l: int, r: int, n: int) {
    && 0 <= s <= l <= r < n < |bh| && bh[r + 1]
    && (forall i {:trigger bh[i]} :: s <= i <= l ==> bh[i])
    && (forall i {:trigger bh[i]} :: l < i <= r ==> !bh[i])
  }

  lemma {:induction false} OneBucket(f: seq<int>, ec: seq<int>, key: seq<int>, bh: seq<bool>, s: int, l: int, r: int,
      i: int)
    requires Refined(f, ec, key, bh, s) && NextBucket(bh, s, l, r, |f|) && l <= i <= r
    ensures ec[f[i]] == ec[f[l]]
    decreases i
  {
    if l < i {
      assert !bh[i];
      OneBucket(f, ec, key, bh, s, l, r, i - 1);
    }
  }

  /** A set bit between two positions that are not refined yet puts them in different buckets. */
  lemma BucketsRise(f: seq<int>, ec: seq<int>, key: seq<int>, bh: seq<bool>, s: int, i: int, j: int, k: int)
    requires Refined(f, ec, key, bh, s) && 0 <= i < k <= j < |f| && s <= k && bh[k]
    ensures ec[f[i]] < ec[f[j]]
  {
    assert ec[f[k - 1]] < ec[f[k]] by { assert ec[f[k - 1]] <= ec[f[k]]; }
    assert i == k - 1 || ec[f[i]] <= ec[f[k - 1]];
    assert j == k || ec[f[k]] <= ec[f[j]];
  }

  /** The bucket l..r after it has been sorted by class. */
  ghost predicate SortedBucket(f: seq<int>, g: seq<int>, key: seq<int>, l: int, r: int) {
    && |f| == |g| && Rearranged(f, g, l, r + 1)
    && 0 <= l && r < |g| && Ordered(g, Q.ByClass(key), l, r)
  }

  /** The headers of l..r after the bucket has been scanned, the others unchanged. */
  ghost predicate Headed(g: seq<int>, key: seq<int>, bh: seq<bool>, bh': seq<bool>, l: int, r: int) {
    && |bh| == |bh'| && 0 <= l <= r < |g| < |bh| && Indices(g, |key|)
    && bh'[l]
    && (forall i {:trigger bh'[i]} :: l < i <= r ==> (bh'[i] <==> bh[i] || key[g[i - 1]] != key[g[i]]))
    && (forall i {:trigger bh'[i]} :: 0 <= i < |bh| && !(l <= i <= r) ==> bh'[i] == bh[i])
  }

  lemma BucketMoved(f: seq<int>, g: seq<int>, ec: seq<int>, key: seq<int>, bh: seq<bool>, s: int, l: int, r: int,
      i: int)
    requires Refined(f, ec, key, bh, s) && NextBucket(bh, s, l, r, |f|) && SortedBucket(f, g, key, l, r)
    requires 0 <= i < |f|
    ensures 0 <= g[i] < |f| && ec[g[i]] == ec[f[i]]
    ensures !(l <= i <= r) ==> g[i] == f[i]
  {
    RearrangedAll(f, g, l, r + 1);
    if l <= i <= r {
      var j := RearrangedFrom(f, g, l, r + 1, i);
      OneBucket(f, ec, key, bh, s, l, r, i);
      OneBucket(f, ec, key, bh, s, l, r, j);
    }
  }

  lemma RefinedOrder(f: seq<int>, g: seq<int>, ec: seq<int>, key: seq<int>, bh: seq<bool>, s: int, l: int, r: int,
      i: int, j: int)
    requires Refined(f, ec, key, bh, s) && NextBucket(bh, s, l, r, |f|) && SortedBucket(f, g, key, l, r)
    requires 0 <= i < j < |f|
    ensures 0 <= g[i] < |f| && 0 <= g[j] < |f|
    ensures ec[g[i]] <= ec[g[j]]
    ensures j <= r ==> Le2(ec, key, g[i], g[j])
  {
    BucketMoved(f, g, ec, key, bh, s, l, r, i);
    BucketMoved(f, g, ec, key, bh, s, l, r, j);
    assert ec[f[i]] <= ec[f[j]];
    if s <= j <= r && i < l {
      var k := if i < s then s else i + 1;
      BucketsRise(f, ec, key, bh, s, i, j, if k <= j then k else j);
    }
  }

  lemma RefinedHead(f: seq<int>, g: seq<int>, ec: seq<int>, key: seq<int>, bh: seq<bool>, bh': seq<bool>,
      s: int, l: int, r: int, i: int)
    requires Refined(f, ec, key, bh, s) && NextBucket(bh, s, l, r, |f|) && SortedBucket(f, g, key, l, r)
    requires Headed(g, key, bh, bh', l, r) && 0 < i < |f|
    ensures 0 <= g[i - 1] < |f| && 0 <= g[i] < |f|
    ensures i <= r ==> (bh'[i] <==> !Same2(ec, key, g[i - 1], g[i]))
    ensures i > r ==> (bh'[i] <==> ec[g[i - 1]] != ec[g[i]])
  {
    BucketMoved(f, g, ec, key, bh, s, l, r, i - 1);
    BucketMoved(f, g, ec, key, bh, s, l, r, i);
    if l < i <= r {
      OneBucket(f, ec, key, bh, s, l, r, i - 1);
      OneBucket(f, ec, key, bh, s, l, r, i);
    } else {
      assert bh'[i] == bh[i] || i == l;
      assert bh[i] == bh[i];
    }
  }

  /** Sorting the next bucket and marking its new parts moves the refined part past it. */
  lemma RefineBucket(f: seq<int>, g: seq<int>, ec: seq<int>, key: seq<int>, bh: seq<bool>, bh': seq<bool>,
      s: int, l: int, r: int)
    requires Refined(f, ec, key, bh, s) && NextBucket(bh, s, l, r, |f|) && SortedBucket(f, g, key, l, r)
    requires Headed(g, key, bh, bh', l, r)
    ensures Refined(g, ec, key, bh', r + 1)
  {
    forall i, j {:trigger g[i], g[j]} | 0 <= i < j < |g|
      ensures 0 <= g[i] < |f| && 0 <= g[j] < |f| && ec[g[i]] <= ec[g[j]] && (j <= r ==> Le2(ec, key, g[i], g[j]))
    {
      RefinedOrder(f, g, ec, key, bh, s, l, r, i, j);
    }
    forall i {:trigger bh'[i]} | 0 < i < |g|
      ensures 0 <= g[i - 1] < |f| && 0 <= g[i] < |f|
      ensures i <= r ==> (bh'[i] <==> !Same2(ec, key, g[i - 1], g[i]))
      ensures i > r ==> (bh'[i] <==> ec[g[i - 1]] != ec[g[i]])
    {
      RefinedHead(f, g, ec, key, bh, bh', s, l, r, i);
    }
    RearrangedIndices(f, g, l, r + 1, |f|);
  }

  /** When every bit from s on is set, the rest are single rotations and nothing is left to refine. */
  lemma RefinedRest(f: seq<int>, ec: seq<int>, key: seq<int>, bh: seq<bool>, s: int)
    requires Refined(f, ec, key, bh, s) && forall i {:trigger bh[i]} :: s <= i <= |f| ==> bh[i]
    ensures Refined(f, ec, key, bh, |f|)
  {
    forall i, j {:trigger f[i], f[j]} | 0 <= i < j < |f| ensures Le2(ec, key, f[i], f[j]) {
      if s <= j {
        BucketsRise(f, ec, key, bh, s, i, j, j);
      }
    }
  }

  /** Marks each change of class in a sorted bucket. */
  method ScanBucket(fmap: array<int>, eclass: array<int>, bhtab: array<bool>, l: int, r: int)
    requires 0 <= l <= r < fmap.Length < bhtab.Length && Indices(fmap[..], eclass.Length)
    requires forall i {:trigger eclass[i]} :: 0 <= i < eclass.Length ==> eclass[i] >= 0
    modifies bhtab
    ensures Headed(fmap[..], eclass[..], old(bhtab[..]), bhtab[..], l, r)
  {
    ghost var g, key, bh := fmap[..], eclass[..], bhtab[..];
    var cc := -1;
    for i := l to r + 1
      invariant i == l ==> cc == -1
      invariant i > l ==> cc == key[g[i - 1]] && bhtab[l]
      invariant forall k {:trigger bhtab[k]} :: l < k < i ==> (bhtab[k] <==> bh[k] || key[g[k - 1]] != key[g[k]])
      invariant forall k {:trigger bhtab[k]} :: 0 <= k < |bh| && !(l <= k < i) ==> bhtab[k] == bh[k]
    {
      var cc1 := eclass[fmap[i]];
      assert cc1 == key[g[i]];
      if cc != cc1 {
        bhtab[i] := true;
        cc := cc1;
      }
    }
  }

  /** The alternating bits after the block that stop the bucket search. */
  ghost predicate Sentinels(bh: seq<bool>, n: nat) {
    n + 64 <= |bh| && bh[n] && !bh[n + 1]
  }

  /** The bits from k to k + 31 all have value v: WORD_BH compared with all ones or zero. */
  method WordIs(bhtab: array<bool>, k: nat, v: bool) returns (r: bool)
    requires k + 32 <= bhtab.Length
    ensures r <==> forall i {:trigger bhtab[i]} :: k <= i < k + 32 ==> bhtab[i] == v
  {
    var i := k;
    while i < k + 32 && bhtab[i] == v
      invariant k <= i <= k + 32
      invariant forall j {:trigger bhtab[j]} :: k <= j < i ==> bhtab[j] == v
    {
      i := i + 1;
    }
    r := i == k + 32;
  }

  /** The first bit from k0 on that is not v, found word by word; bit end is known to be one. */
  method SkipBits(bhtab: array<bool>, k0: nat, v: bool, ghost end: nat) returns (k: nat)
    requires k0 <= end && end + 32 <= bhtab.Length && bhtab[end] != v
    ensures k0 <= k <= end && bhtab[k] != v
    ensures forall i {:trigger bhtab[i]} :: k0 <= i < k ==> bhtab[i] == v
  {
    k := k0;
    while bhtab[k] == v && k % 32 != 0
      invariant k0 <= k <= end
      invariant forall i {:trigger bhtab[i]} :: k0 <= i < k ==> bhtab[i] == v
      decreases end - k
    {
      k := k + 1;
    }
    if bhtab[k] == v {
      var full := WordIs(bhtab, k, v);
      while full
        invariant k0 <= k <= end
        invariant full <==> forall i {:trigger bhtab[i]} :: k <= i < k + 32 ==> bhtab[i] == v
        invariant forall i {:trigger bhtab[i]} :: k0 <= i < k ==> bhtab[i] == v
        decreases end - k
      {
        k := k + 32;
        full := WordIs(bhtab, k, v);
      }
      while bhtab[k] == v
        invariant k0 <= k <= end
        invariant forall i {:trigger bhtab[i]} :: k0 <= i < k ==> bhtab[i] == v
        decreases end - k
      {
        k := k + 1;
      }
    }
  }

  /** The search for the next bucket of more than one rotation, from the start s of a bucket. */
  method FindBucket(bhtab: array<bool>, n: nat, s: nat) returns (done: bool, l: int, r: int)
    requires s <= n && Sentinels(bhtab[..], n) && bhtab[s]
    ensures done ==> forall i {:trigger bhtab[i]} :: s <= i <= n ==> bhtab[i]
    ensures !done ==> NextBucket(bhtab[..], s, l, r, n) && l < r
  {
    var k := SkipBits(bhtab, s, true, n + 1);
    l, r := k - 1, k - 1;
    done := l >= n;
    if !done {
      k := SkipBits(bhtab, k, false, n);
      r := k - 1;
    }
  }

  /** One round: finds each bucket of more than one rotation, sorts it by class and marks its parts. */
  method Round(fmap: array<int>, eclass: array<int>, bhtab: array<bool>, n: nat, ghost ec: seq<int>)
      returns (nNotDone: nat)
    requires fmap != eclass && fmap.Length == eclass.Length == n <= 900000
    requires Refined(fmap[..], ec, eclass[..], bhtab[..], 0) && Sentinels(bhtab[..], n)
    requires forall i {:trigger eclass[i]} :: 0 <= i < n ==> eclass[i] >= 0
    modifies fmap, bhtab
    ensures Refined(fmap[..], ec, eclass[..], bhtab[..], n) && Sentinels(bhtab[..], n)
    ensures Rearranged(old(fmap[..]), fmap[..], 0, n)
    ensures nNotDone == 0 ==> forall i {:trigger bhtab[i]} :: 0 <= i < n ==> bhtab[i]
  {
    ghost var was, key := fmap[..], eclass[..];
    RearrangedSame(was, 0, n);
    nNotDone := 0;
    var s := 0;
    while true
      invariant Refined(fmap[..], ec, key, bhtab[..], s) && Sentinels(bhtab[..], n)
      invariant Rearranged(was, fmap[..], 0, n)
      invariant nNotDone == 0 ==> s == 0
      decreases n - s
    {
      var done, l, r := FindBucket(bhtab, n, s);
      if done { break; }
      nNotDone := nNotDone + (r - l + 1);
      SplitBucket(fmap, eclass, bhtab, n, ec, s, l, r, was);
      s := r + 1;
    }
    RefinedRest(fmap[..], ec, key, bhtab[..], s);
  }

  /** Sorts and marks the bucket l..r. */
  method SplitBucket(fmap: array<int>, eclass: array<int>, bhtab: array<bool>, n: nat, ghost ec: seq<int>,
      ghost s: int, l: int, r: int, ghost was: seq<int>)
    requires fmap != eclass && fmap.Length == eclass.Length == n <= 900000
    requires Refined(fmap[..], ec, eclass[..], bhtab[..], s) && Sentinels(bhtab[..], n)
    requires NextBucket(bhtab[..], s, l, r, n) && Rearranged(was, fmap[..], 0, n)
    requires forall i {:trigger eclass[i]} :: 0 <= i < n ==> eclass[i] >= 0
    modifies fmap, bhtab
    ensures Refined(fmap[..], ec, eclass[..], bhtab[..], r + 1) && Sentinels(bhtab[..], n)
    ensures Rearranged(was, fmap[..], 0, n)
  {
    ghost var f, key, bh := fmap[..], eclass[..], bhtab[..];
    Q.QSort3(fmap, eclass, l, r);
    ghost var g := fmap[..];
    RearrangedIndices(f, g, l, r + 1, n);
    ScanBucket(fmap, eclass, bhtab, l, r);
    RefineBucket(f, g, ec, key, bh, bhtab[..], s, l, r);
    RearrangedWider(f, g, l, r + 1, 0, n);
    RearrangedTrans(was, f, g, 0, n);
  }
}
