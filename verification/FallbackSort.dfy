/** fallbackSort: a radix sort that doubles the number of bytes its buckets agree on in every round. */
module FallbackSort {
  import opened Permutations
  import opened Rotations
  import opened Counting
  import opened Segments
  import opened Buckets

  // ---- the initial sort on one byte ----

  /** Where the one-byte sort puts position i: buckets are filled from their ends. */
  ghost function Slot(b: Block, i: nat): int
    requires i < |b|
  {
    Less(b, b[i] as int + 1, |b|) - 1 - Occ(b, b[i], i)
  }

  lemma SlotBounds(b: Block, i: nat)
    requires i < |b|
    ensures Less(b, b[i], |b|) <= Slot(b, i) < Less(b, b[i] as int + 1, |b|) <= |b|
  {
    OccMono(b, b[i], i + 1, |b|);
    LessMono(b, b[i] as int + 1, 256, |b|);
    LessAll(b, 256, |b|);
  }

  lemma SlotsDiffer(b: Block, i: nat, j: nat)
    requires i < j < |b|
    ensures Slot(b, i) != Slot(b, j)
  {
    SlotBounds(b, i);
    SlotBounds(b, j);
    if b[i] == b[j] {
      OccMono(b, b[i], i + 1, j);
    } else if b[i] < b[j] {
      LessMono(b, b[i] as int + 1, b[j], |b|);
    } else {
      LessMono(b, b[j] as int + 1, b[i], |b|);
    }
  }

  /** fmap has every position of the block in its slot. */
  ghost predicate Slotted(b: Block, fmap: seq<int>) {
    |fmap| == |b| && forall i {:trigger Slot(b, i)} :: 0 <= i < |b| ==> 0 <= Slot(b, i) < |b| && fmap[Slot(b, i)] == i
  }

  lemma SlottedAt(b: Block, fmap: seq<int>, p: nat)
    requires Slotted(b, fmap) && p < |b|
    ensures 0 <= fmap[p] < |b| && Slot(b, fmap[p]) == p
  {
    var slots := seq(|b|, i requires 0 <= i < |b| => Slot(b, i));
    forall i, j | 0 <= i < j < |b| ensures slots[i] != slots[j] { SlotsDiffer(b, i, j); }
    forall i | 0 <= i < |b| ensures 0 <= slots[i] < |b| { SlotBounds(b, i); }
    var i := PermHits(slots, p);
    assert Slot(b, i) == p;
  }

  lemma SlottedPerm(b: Block, fmap: seq<int>)
    requires Slotted(b, fmap)
    ensures IsPerm(fmap)
  {
    forall p | 0 <= p < |b| ensures 0 <= fmap[p] < |b| && Slot(b, fmap[p]) == p { SlottedAt(b, fmap, p); }
  }

  lemma SlottedByte(b: Block, fmap: seq<int>, p: nat)
    requires Slotted(b, fmap) && p < |b|
    ensures 0 <= fmap[p] < |b| && Less(b, b[fmap[p]], |b|) <= p < Less(b, b[fmap[p]] as int + 1, |b|)
  {
    SlottedAt(b, fmap, p);
    SlotBounds(b, fmap[p]);
  }

  lemma SlottedSorted(b: Block, fmap: seq<int>)
    requires Slotted(b, fmap)
    ensures IsPerm(fmap) && SortedBy(b, fmap, 1)
  {
    SlottedPerm(b, fmap);
    forall p, q | 0 <= p < q < |b| ensures Cmp(b, fmap[p], fmap[q], 1) <= 0 {
      SlottedByte(b, fmap, p);
      SlottedByte(b, fmap, q);
      if b[fmap[p]] > b[fmap[q]] { LessMono(b, b[fmap[q]] as int + 1, b[fmap[p]], |b|); }
    }
  }

  /** The bytes counted, the buckets' starts, and every position in its slot. */
  method RadixSort(block: array<int>, fmap: array<int>, n: nat, ghost b: Block)
      returns (ftab: array<int>, ftabCopy: array<int>)
    requires block != fmap && block.Length >= n == |b| == fmap.Length && block[..n] == b
    modifies fmap
    ensures fresh(ftab) && fresh(ftabCopy) && ftab.Length == 257 && ftabCopy.Length == 256 && ftab != ftabCopy
    ensures forall c :: 0 <= c < 256 ==> ftab[c] == Less(b, c, n)
    ensures forall c :: 0 <= c < 256 ==> ftabCopy[c] == Occ(b, c, n)
    ensures Slotted(b, fmap[..])
  {
    assert forall i :: 0 <= i < n ==> block[i] == block[..n][i] == b[i];
    ftab := new int[257](_ => 0);
    for i := 0 to n
      invariant forall c {:trigger ftab[c]} :: 0 <= c < 256 ==> ftab[c] == Occ(b, c, i)
      invariant ftab[256] == 0
    {
      ftab[block[i]] := ftab[block[i]] + 1;
    }
    ftabCopy := new int[256](i requires 0 <= i < 256 reads ftab => ftab[i]);
    Accumulate(ftab, n, b);
    Distribute(block, fmap, ftab, n, b);
  }

  method Accumulate(ftab: array<int>, n: nat, ghost b: Block)
    requires ftab.Length == 257 && n == |b| && forall c {:trigger ftab[c]} :: 0 <= c < 256 ==> ftab[c] == Occ(b, c, n)
    modifies ftab
    ensures forall c {:trigger ftab[c]} :: 0 <= c < 256 ==> ftab[c] == Less(b, c + 1, n)
  {
    for i := 1 to 257
      invariant forall c {:trigger ftab[c]} :: 0 <= c < i && c < 256 ==> ftab[c] == Less(b, c + 1, n)
      invariant forall c {:trigger ftab[c]} :: i <= c < 256 ==> ftab[c] == Occ(b, c, n)
    {
      ftab[i] := ftab[i] + ftab[i - 1];
    }
  }

  method Distribute(block: array<int>, fmap: array<int>, ftab: array<int>, n: nat, ghost b: Block)
    requires ftab.Length == 257 && n == |b| == fmap.Length && block.Length >= n
    requires block != fmap && ftab != fmap && ftab != block
    requires forall i {:trigger block[i]} :: 0 <= i < n ==> block[i] == b[i]
    requires forall c {:trigger ftab[c]} :: 0 <= c < 256 ==> ftab[c] == Less(b, c + 1, n)
    modifies fmap, ftab
    ensures forall c {:trigger ftab[c]} :: 0 <= c < 256 ==> ftab[c] == Less(b, c, n)
    ensures Slotted(b, fmap[..])
  {
    for i := 0 to n
      invariant forall c {:trigger ftab[c]} :: 0 <= c < 256 ==> ftab[c] == Less(b, c + 1, n) - Occ(b, c, i)
      invariant forall k {:trigger Slot(b, k)} :: 0 <= k < i ==> 0 <= Slot(b, k) < n && fmap[Slot(b, k)] == k
    {
      var j := block[i];
      var k := ftab[j] - 1;
      assert k == Slot(b, i);
      SlotBounds(b, i);
      forall x | 0 <= x < i ensures Slot(b, x) != k { SlotsDiffer(b, x, i); }
      ftab[j] := k;
      fmap[k] := i;
    }
  }

  // ---- bucket headers ----

  /** bh marks the first position of every bucket of rotations that agree on h bytes. */
  ghost predicate HeadsAt(b: Block, fmap: seq<int>, bh: seq<bool>, h: nat)
    requires IsPerm(fmap) && |fmap| == |b| <= |bh|
  {
    && bh[0]
    && forall i {:trigger bh[i]} :: 0 < i < |b| ==> (bh[i] <==> Cmp(b, fmap[i - 1], fmap[i], h) != 0)
  }

  lemma SlottedHead(b: Block, fmap: seq<int>, i: nat, c: nat)
    requires Slotted(b, fmap) && 0 < i < |b| && c < 256 && i == Less(b, c, |b|)
    ensures 0 <= fmap[i - 1] < |b| && 0 <= fmap[i] < |b| && b[fmap[i - 1]] < b[fmap[i]]
  {
    SlottedByte(b, fmap, i - 1);
    SlottedByte(b, fmap, i);
    if b[fmap[i - 1]] >= c { LessMono(b, c, b[fmap[i - 1]], |b|); }
    if b[fmap[i]] < c { LessMono(b, b[fmap[i]] as int + 1, c, |b|); }
  }

  lemma SlottedHeadBack(b: Block, fmap: seq<int>, i: nat)
    requires Slotted(b, fmap) && 0 < i < |b| && 0 <= fmap[i - 1] < |b| && 0 <= fmap[i] < |b|
    requires b[fmap[i - 1]] != b[fmap[i]]
    ensures i == Less(b, b[fmap[i]], |b|)
  {
    SlottedByte(b, fmap, i - 1);
    SlottedByte(b, fmap, i);
    if b[fmap[i]] < b[fmap[i - 1]] {
      LessMono(b, b[fmap[i]] as int + 1, b[fmap[i - 1]], |b|);
    } else {
      LessMono(b, b[fmap[i - 1]] as int + 1, b[fmap[i]], |b|);
    }
  }

  /** Clears the table, then marks the buckets' starts and the sentinel bits. */
  method InitHeads(bhtab: array<bool>, ftab: array<int>, n: nat, ghost b: Block, ghost fmap: seq<int>)
    requires n == |b| && bhtab.Length >= n + 96 && ftab.Length == 257 && Slotted(b, fmap) && IsPerm(fmap)
    requires forall c {:trigger ftab[c]} :: 0 <= c < 256 ==> ftab[c] == Less(b, c, n)
    modifies bhtab
    ensures HeadsAt(b, fmap, bhtab[..], 1) && Sentinels(bhtab[..], n)
  {
    for i := 0 to bhtab.Length
      invariant forall k {:trigger bhtab[k]} :: 0 <= k < i ==> !bhtab[k]
    {
      bhtab[i] := false;
    }
    LessAll(b, 256, n);
    forall c | 0 <= c < 256 ensures Less(b, c, n) <= n { LessMono(b, c, 256, n); }
    for i := 0 to 256
      invariant i > 0 ==> bhtab[0]
      invariant forall k {:trigger bhtab[k]} ::
        0 <= k < bhtab.Length && bhtab[k] ==> exists c :: 0 <= c < i && k == ftab[c]
      invariant forall c {:trigger ftab[c]} :: 0 <= c < i ==> bhtab[ftab[c]]
    {
      bhtab[ftab[i]] := true;
    }
    forall i | 0 < i < n ensures bhtab[i] <==> Cmp(b, fmap[i - 1], fmap[i], 1) != 0 {
      if b[fmap[i - 1]] != b[fmap[i]] {
        SlottedHeadBack(b, fmap, i);
        assert bhtab[ftab[b[fmap[i]]]];
      }
      if bhtab[i] {
        var c :| 0 <= c < 256 && i == ftab[c];
        SlottedHead(b, fmap, i, c);
      }
    }
    ghost var was := bhtab[..];
    for i := 0 to 32
      invariant i > 0 ==> bhtab[n] && !bhtab[n + 1]
      invariant forall k {:trigger bhtab[k]} :: 0 <= k < n ==> bhtab[k] == was[k]
    {
      bhtab[n + 2 * i] := true;
      bhtab[n + 2 * i + 1] := false;
    }
  }

  // ---- classes ----

  /** The first position of the bucket that position i is in. */
  function HeadOf(bh: seq<bool>, i: nat): (r: nat)
    requires i < |bh|
    ensures r <= i
  {
    if i == 0 || bh[i] then i else HeadOf(bh, i - 1)
  }

  /** Along the sorted order, bucket starts rank the rotations on h bytes. */
  lemma {:induction false} HeadsRank(b: Block, fmap: seq<int>, bh: seq<bool>, h: nat, i: nat, j: nat)
    requires IsPerm(fmap) && |fmap| == |b| <= |bh| && i <= j < |b|
    requires SortedBy(b, fmap, h) && HeadsAt(b, fmap, bh, h)
    ensures HeadOf(bh, i) <= HeadOf(bh, j)
    ensures HeadOf(bh, i) == HeadOf(bh, j) <==> Cmp(b, fmap[i], fmap[j], h) == 0
    decreases j
  {
    if i == j {
      CmpSelf(b, fmap[i], h);
    } else {
      HeadsRank(b, fmap, bh, h, i, j - 1);
      if i == j - 1 { CmpSelf(b, fmap[i], h); } else { assert Cmp(b, fmap[i], fmap[j - 1], h) <= 0; }
      assert Cmp(b, fmap[j - 1], fmap[j], h) <= 0;
      CmpTrans(b, fmap[i], fmap[j - 1], fmap[j], h);
    }
  }

  /** k stepped back by h bytes round the block, as the class loop does it. */
  function Back(p: int, h: nat, n: nat): int {
    if p - h < 0 then p - h + n else p - h
  }

  /** eclass holds, for each position, the bucket of the rotation h bytes further on. */
  ghost predicate Classes(eclass: seq<int>, fmap: seq<int>, bh: seq<bool>, h: nat) {
    && |eclass| == |fmap| <= |bh|
    && forall i {:trigger fmap[i]} :: 0 <= i < |fmap| ==>
         0 <= Back(fmap[i], h, |fmap|) < |fmap| && eclass[Back(fmap[i], h, |fmap|)] == HeadOf(bh, i)
  }

  method MakeClasses(eclass: array<int>, fmap: array<int>, bhtab: array<bool>, h: nat, n: nat)
    requires eclass != fmap && eclass.Length == fmap.Length == n <= bhtab.Length && 1 <= h <= n
    requires IsPerm(fmap[..]) && bhtab[..][0]
    modifies eclass
    ensures Classes(eclass[..], fmap[..], bhtab[..], h)
  {
    ghost var f, bh := fmap[..], bhtab[..];
    var j := 0;
    for i := 0 to n
      invariant i > 0 ==> j == HeadOf(bh, i - 1)
      invariant forall k {:trigger f[k]} :: 0 <= k < i ==>
        0 <= Back(f[k], h, n) < n && eclass[Back(f[k], h, n)] == HeadOf(bh, k)
    {
      if bhtab[i] { j := i; }
      var k := fmap[i] - h;
      if k < 0 { k := k + n; }
      assert f[i] == fmap[i] && k == Back(f[i], h, n);
      assert forall x {:trigger f[x]} :: 0 <= x < i ==> f[x] != f[i] && Back(f[x], h, n) != k;
      eclass[k] := j;
    }
  }

  lemma ClassOf(fmap: seq<int>, bh: seq<bool>, eclass: seq<int>, h: nat, p: nat) returns (i: nat)
    requires IsPerm(fmap) && 1 <= h <= |fmap| && p < |fmap| && Classes(eclass, fmap, bh, h)
    ensures i < |fmap| && fmap[i] == Wrap(p + h, |fmap|) && eclass[p] == HeadOf(bh, i)
  {
    var n := |fmap|;
    assert Wrap(p + h, n) == if p + h < n then p + h else p + h - n;
    i := PermHits(fmap, Wrap(p + h, n));
    assert Back(fmap[i], h, n) == p;
  }

  lemma HeadsCompare(b: Block, fmap: seq<int>, bh: seq<bool>, h: nat, i: nat, j: nat)
    requires IsPerm(fmap) && |fmap| == |b| <= |bh| && i < |b| && j < |b|
    requires SortedBy(b, fmap, h) && HeadsAt(b, fmap, bh, h)
    ensures HeadOf(bh, i) <= HeadOf(bh, j) <==> Cmp(b, fmap[i], fmap[j], h) <= 0
    ensures HeadOf(bh, i) == HeadOf(bh, j) <==> Cmp(b, fmap[i], fmap[j], h) == 0
  {
    if i <= j {
      HeadsRank(b, fmap, bh, h, i, j);
      if i == j { CmpSelf(b, fmap[i], h); }
    } else {
      HeadsRank(b, fmap, bh, h, j, i);
      CmpFlip(b, fmap[i], fmap[j], h);
    }
  }

  /** Comparing classes compares the h bytes that start h bytes on. */
  lemma ClassRank(b: Block, fmap: seq<int>, bh: seq<bool>, eclass: seq<int>, h: nat, p: nat, q: nat)
    requires IsPerm(fmap) && |fmap| == |b| <= |bh| && 1 <= h <= |b| && p < |b| && q < |b|
    requires SortedBy(b, fmap, h) && HeadsAt(b, fmap, bh, h) && Classes(eclass, fmap, bh, h)
    ensures eclass[p] <= eclass[q] <==> Cmp(b, p + h, q + h, h) <= 0
    ensures eclass[p] == eclass[q] <==> Cmp(b, p + h, q + h, h) == 0
  {
    var i := ClassOf(fmap, bh, eclass, h, p);
    var j := ClassOf(fmap, bh, eclass, h, q);
    CmpWrapBoth(b, p + h, q + h, h);
    HeadsCompare(b, fmap, bh, h, i, j);
  }

  // ---- one round doubles the depth ----

  /** The bucket every position is in: the class of the position h bytes back. */
  ghost function BucketOf(eclass: seq<int>, h: nat): (ec: seq<int>)
    requires 1 <= h <= |eclass|
    ensures |ec| == |eclass|
  {
    seq(|eclass|, p requires 0 <= p < |eclass| => eclass[Back(p, h, |eclass|)])
  }

  lemma BucketAt(fmap: seq<int>, bh: seq<bool>, eclass: seq<int>, h: nat, i: nat)
    requires IsPerm(fmap) && 1 <= h <= |fmap| && i < |fmap| && Classes(eclass, fmap, bh, h)
    ensures BucketOf(eclass, h)[fmap[i]] == HeadOf(bh, i)
  {
  }

  /** Before the round every bucket stands as it is. */
  lemma {:induction false} HeadsMono(bh: seq<bool>, i: nat, j: nat)
    requires i <= j < |bh|
    ensures HeadOf(bh, i) <= HeadOf(bh, j)
    decreases j
  {
    if i < j { HeadsMono(bh, i, j - 1); }
  }

  lemma RefinedInit(fmap: seq<int>, bh: seq<bool>, eclass: seq<int>, h: nat)
    requires IsPerm(fmap) && 1 <= h <= |fmap| < |bh| && bh[0] && Classes(eclass, fmap, bh, h)
    ensures Refined(fmap, BucketOf(eclass, h), eclass, bh, 0)
  {
    var ec := BucketOf(eclass, h);
    forall i, j {:trigger fmap[i], fmap[j]} | 0 <= i < j < |fmap| ensures ec[fmap[i]] <= ec[fmap[j]] {
      BucketAt(fmap, bh, eclass, h, i);
      BucketAt(fmap, bh, eclass, h, j);
      HeadsMono(bh, i, j);
    }
    forall i {:trigger bh[i]} | 0 < i < |fmap| ensures bh[i] <==> ec[fmap[i - 1]] != ec[fmap[i]] {
      BucketAt(fmap, bh, eclass, h, i - 1);
      BucketAt(fmap, bh, eclass, h, i);
    }
  }

  lemma BucketRank(b: Block, fmap: seq<int>, bh: seq<bool>, eclass: seq<int>, h: nat, p: nat, q: nat)
    requires IsPerm(fmap) && |fmap| == |b| <= |bh| && 1 <= h <= |b| && p < |b| && q < |b|
    requires SortedBy(b, fmap, h) && HeadsAt(b, fmap, bh, h) && Classes(eclass, fmap, bh, h)
    ensures BucketOf(eclass, h)[p] <= BucketOf(eclass, h)[q] <==> Cmp(b, p, q, h) <= 0
    ensures BucketOf(eclass, h)[p] == BucketOf(eclass, h)[q] <==> Cmp(b, p, q, h) == 0
  {
    var i := PermHits(fmap, p);
    var j := PermHits(fmap, q);
    BucketAt(fmap, bh, eclass, h, i);
    BucketAt(fmap, bh, eclass, h, j);
    HeadsCompare(b, fmap, bh, h, i, j);
  }

  /** Comparing bucket and then class compares 2h bytes. */
  lemma PairDoubles(b: Block, fmap: seq<int>, bh: seq<bool>, eclass: seq<int>, h: nat, p: nat, q: nat)
    requires IsPerm(fmap) && |fmap| == |b| <= |bh| && 1 <= h <= |b| && p < |b| && q < |b|
    requires SortedBy(b, fmap, h) && HeadsAt(b, fmap, bh, h) && Classes(eclass, fmap, bh, h)
    ensures Le2(BucketOf(eclass, h), eclass, p, q) <==> Cmp(b, p, q, 2 * h) <= 0
    ensures Same2(BucketOf(eclass, h), eclass, p, q) <==> Cmp(b, p, q, 2 * h) == 0
  {
    BucketRank(b, fmap, bh, eclass, h, p, q);
    ClassRank(b, fmap, bh, eclass, h, p, q);
    PairRanks(b, BucketOf(eclass, h), eclass, h, p, q);
  }

  lemma PairRanks(b: Block, ec: seq<int>, eclass: seq<int>, h: nat, p: nat, q: nat)
    requires |ec| == |eclass| == |b| && p < |b| && q < |b|
    requires (ec[p] <= ec[q] <==> Cmp(b, p, q, h) <= 0) && (ec[p] == ec[q] <==> Cmp(b, p, q, h) == 0)
    requires (eclass[p] <= eclass[q] <==> Cmp(b, p + h, q + h, h) <= 0)
      && (eclass[p] == eclass[q] <==> Cmp(b, p + h, q + h, h) == 0)
    ensures Le2(ec, eclass, p, q) <==> Cmp(b, p, q, 2 * h) <= 0
    ensures Same2(ec, eclass, p, q) <==> Cmp(b, p, q, 2 * h) == 0
  {
    CmpSplit(b, p, q, h, h);
  }

  lemma RoundDoubles(b: Block, f0: seq<int>, bh0: seq<bool>, eclass: seq<int>, h: nat, f: seq<int>, bh: seq<bool>)
    requires IsPerm(f0) && |f0| == |b| <= |bh0| && 1 <= h <= |b|
    requires SortedBy(b, f0, h) && HeadsAt(b, f0, bh0, h) && Classes(eclass, f0, bh0, h)
    requires IsPerm(f) && Refined(f, BucketOf(eclass, h), eclass, bh, |b|)
    ensures SortedBy(b, f, 2 * h) && HeadsAt(b, f, bh, 2 * h)
  {
    forall i, j | 0 <= i < j < |f| ensures Cmp(b, f[i], f[j], 2 * h) <= 0 {
      PairDoubles(b, f0, bh0, eclass, h, f[i], f[j]);
    }
    forall i {:trigger bh[i]} | 0 < i < |f| ensures bh[i] <==> Cmp(b, f[i - 1], f[i], 2 * h) != 0 {
      PairDoubles(b, f0, bh0, eclass, h, f[i - 1], f[i]);
    }
  }

  /** When h bytes cover the block, or no two rotations agree on them, the order is final. */
  lemma DeepEnough(b: Block, f: seq<int>, bh: seq<bool>, h: nat)
    requires IsPerm(f) && |f| == |b| <= |bh| && SortedBy(b, f, h) && HeadsAt(b, f, bh, h)
    requires h > |b| || forall i {:trigger bh[i]} :: 0 <= i < |b| ==> bh[i]
    ensures SortsRotations(b, f)
  {
    forall i, j | 0 <= i < j < |f| ensures Cmp(b, f[i], f[j], |b|) <= 0 {
      assert Cmp(b, f[i], f[j], h) <= 0;
      if h >= |b| {
        CmpEnough(b, f[i], f[j], h);
      } else {
        StrictlyRising(b, f, bh, h, i, j);
        CmpSplit(b, f[i], f[j], h, |b| - h);
      }
    }
    SortedIsSorts(b, f);
  }

  lemma StrictlyRising(b: Block, f: seq<int>, bh: seq<bool>, h: nat, i: nat, j: nat)
    requires IsPerm(f) && |f| == |b| <= |bh| && SortedBy(b, f, h) && HeadsAt(b, f, bh, h) && i < j < |b|
    requires forall i {:trigger bh[i]} :: 0 <= i < |b| ==> bh[i]
    ensures Cmp(b, f[i], f[j], h) < 0
  {
    assert bh[j];
    assert Cmp(b, f[j - 1], f[j], h) < 0;
    if i < j - 1 { CmpTrans(b, f[i], f[j - 1], f[j], h); }
  }

  // ---- the whole sort ----

  /** The classes are about to overwrite the block, which shares their storage. */
  method Overwrite(block: array<int>)
    modifies block
  {
    for i := 0 to block.Length {
      block[i] := 0;
    }
  }

  /** The bytes along the sorted order. */
  ghost function FirstColumn(b: Block, fmap: seq<int>): (r: seq<Byte>)
    requires IsPerm(fmap) && |fmap| == |b|
    ensures |r| == |b|
  {
    seq<Byte>(|b|, i requires 0 <= i < |b| => b[fmap[i]])
  }

  /** The column has every byte as often as the block does. */
  lemma ColumnCount(b: Block, f: seq<int>, c: int)
    requires IsPerm(f) && |f| == |b|
    ensures Occ(FirstColumn(b, f), c, |b|) == Occ(b, c, |b|)
  {
    var col, n := FirstColumn(b, f), |b|;
    OccPlaces(col, c, n);
    OccPlaces(b, c, n);
    var g := InversePerm(f);
    Injection(Places(col, c, n), Places(b, c, n), f, n);
    assert forall p :: p in Places(b, c, n) ==> f[g[p]] == p;
    Injection(Places(b, c, n), Places(col, c, n), g, n);
  }

  lemma ColumnRises(b: Block, f: seq<int>, i: nat, j: nat)
    requires IsPerm(f) && |f| == |b| && SortedBy(b, f, 1) && i <= j < |b|
    ensures FirstColumn(b, f)[i] <= FirstColumn(b, f)[j]
  {
    if i < j { assert Cmp(b, f[i], f[j], 1) <= 0; }
  }

  /** Bytes smaller than the one at i have all been dealt out before i. */
  lemma {:induction false} NoneSmallerLeft(b: Block, f: seq<int>, i: nat, c: int, k: nat)
    requires IsPerm(f) && |f| == |b| && SortedBy(b, f, 1) && i < |b| && c < FirstColumn(b, f)[i] && i <= k <= |b|
    ensures Occ(FirstColumn(b, f), c, k) == Occ(FirstColumn(b, f), c, i)
    decreases k
  {
    if i < k {
      NoneSmallerLeft(b, f, i, c, k - 1);
      ColumnRises(b, f, i, k - 1);
    }
  }

  /** The first byte from j0 on that is still to be dealt out; last is one. */
  method NextByte(ftabCopy: array<int>, j0: nat, ghost last: nat) returns (j: nat)
    requires j0 <= last < 256 == ftabCopy.Length && ftabCopy[last] != 0
    ensures j0 <= j <= last && ftabCopy[j] != 0
    ensures forall c {:trigger ftabCopy[c]} :: j0 <= c < j ==> ftabCopy[c] == 0
  {
    j := j0;
    while ftabCopy[j] == 0
      invariant j0 <= j <= last
      invariant forall c {:trigger ftabCopy[c]} :: j0 <= c < j ==> ftabCopy[c] == 0
      decreases 256 - j
    {
      j := j + 1;
    }
  }

  /** left counts the bytes of the column from i on. */
  ghost predicate Dealt(left: seq<int>, col: seq<Byte>, i: nat)
    requires i <= |col|
  {
    |left| == 256 && forall c {:trigger left[c]} :: 0 <= c < 256 ==> left[c] == Occ(col, c, |col|) - Occ(col, c, i)
  }

  lemma DealtNext(left: seq<int>, b: Block, f: seq<int>, i: nat, j: int)
    requires IsPerm(f) && |f| == |b| && SortedBy(b, f, 1) && i < |b| && Dealt(left, FirstColumn(b, f), i)
    requires j == if i == 0 then 0 else FirstColumn(b, f)[i - 1] as int
    ensures j <= FirstColumn(b, f)[i] && left[FirstColumn(b, f)[i]] > 0
    ensures Dealt(left[FirstColumn(b, f)[i] := left[FirstColumn(b, f)[i]] - 1], FirstColumn(b, f), i + 1)
  {
    var col := FirstColumn(b, f);
    OccMono(col, col[i], i + 1, |b|);
    if i > 0 { ColumnRises(b, f, i - 1, i); }
  }

  lemma NotSmaller(left: seq<int>, b: Block, f: seq<int>, i: nat, j: nat)
    requires IsPerm(f) && |f| == |b| && SortedBy(b, f, 1) && i < |b| && Dealt(left, FirstColumn(b, f), i)
    requires j <= FirstColumn(b, f)[i] && left[j] != 0
    ensures j == FirstColumn(b, f)[i] == b[f[i]]
  {
    if j < FirstColumn(b, f)[i] { NoneSmallerLeft(b, f, i, j, |b|); }
  }

  /** Deals the counted bytes out along the sorted order, which restores the block. */
  method Restore(block: array<int>, fmap: array<int>, ftabCopy: array<int>, n: nat, ghost b: Block)
    requires block != fmap && ftabCopy != fmap && ftabCopy != block
    requires block.Length >= n == |b| == fmap.Length && ftabCopy.Length == 256 && IsPerm(fmap[..])
    requires SortedBy(b, fmap[..], 1)
    requires forall c {:trigger ftabCopy[c]} :: 0 <= c < 256 ==> ftabCopy[c] == Occ(b, c, n)
    modifies block, ftabCopy
    ensures block[..n] == b
  {
    ghost var f := fmap[..];
    ghost var col := FirstColumn(b, f);
    forall c ensures Occ(col, c, n) == Occ(b, c, n) { ColumnCount(b, f, c); }
    var j := 0;
    for i := 0 to n
      invariant j == if i == 0 then 0 else col[i - 1] as int
      invariant Dealt(ftabCopy[..], col, i)
      invariant forall k {:trigger f[k]} :: 0 <= k < i ==> block[f[k]] == b[f[k]]
    {
      DealtNext(ftabCopy[..], b, f, i, j);
      j := NextByte(ftabCopy, j, col[i]);
      NotSmaller(ftabCopy[..], b, f, i, j);
      assert f[i] == fmap[i];
      ftabCopy[j] := ftabCopy[j] - 1;
      block[fmap[i]] := j;
    }
    forall p | 0 <= p < n ensures block[p] == b[p] {
      var k := PermHits(f, p);
      assert block[f[k]] == b[f[k]];
    }
  }

  /** fallbackSort: for every block, however repetitive, it ends with fmap listing all rotations in
      order and the block put back. */
  method Sort(block: array<int>, fmap: array<int>, eclass: array<int>, bhtab: array<bool>, n: nat, ghost b: Block)
    requires block != fmap && eclass != fmap && block != eclass
    requires n == |b| == fmap.Length == eclass.Length <= 900000 && n <= block.Length && n + 96 <= bhtab.Length
    requires block[..n] == b
    modifies block, fmap, eclass, bhtab
    ensures SortsRotations(b, fmap[..]) && block[..n] == b
  {
    var ftab, ftabCopy := RadixSort(block, fmap, n, b);
    SlottedSorted(b, fmap[..]);
    InitHeads(bhtab, ftab, n, b, fmap[..]);
    Overwrite(block);
    var h := 1;
    while true
      modifies fmap, eclass, bhtab
      invariant 1 <= h <= n && IsPerm(fmap[..]) && SortedBy(b, fmap[..], h)
      invariant HeadsAt(b, fmap[..], bhtab[..], h) && Sentinels(bhtab[..], n)
      decreases n - h
    {
      var more := DoubleDepth(fmap, eclass, bhtab, h, n, b);
      h := h * 2;
      if h > n || !more { break; }
    }
    DeepEnough(b, fmap[..], bhtab[..], h);
    SortedByFirst(b, fmap[..]);
    Restore(block, fmap, ftabCopy, n, b);
  }

  lemma SortedByFirst(b: Block, f: seq<int>)
    requires SortsRotations(b, f)
    ensures SortedBy(b, f, 1)
  {
    SortedIsSorts(b, f);
    forall i, j | 0 <= i < j < |f| ensures Cmp(b, f[i], f[j], 1) <= 0 {
      CmpSplit(b, f[i], f[j], 1, |b| - 1);
    }
  }

  /** Makes the classes for depth h and runs a round on them. */
  method DoubleDepth(fmap: array<int>, eclass: array<int>, bhtab: array<bool>, h: nat, n: nat, ghost b: Block)
      returns (more: bool)
    requires eclass != fmap && n == |b| == fmap.Length == eclass.Length <= 900000 && 1 <= h <= n
    requires IsPerm(fmap[..]) && Sentinels(bhtab[..], n)
    requires SortedBy(b, fmap[..], h) && HeadsAt(b, fmap[..], bhtab[..], h)
    modifies fmap, eclass, bhtab
    ensures IsPerm(fmap[..]) && Sentinels(bhtab[..], n)
    ensures SortedBy(b, fmap[..], 2 * h) && HeadsAt(b, fmap[..], bhtab[..], 2 * h)
    ensures !more ==> forall i {:trigger bhtab[i]} :: 0 <= i < n ==> bhtab[i]
  {
    MakeClasses(eclass, fmap, bhtab, h, n);
    ghost var f, bh, key := fmap[..], bhtab[..], eclass[..];
    RefinedInit(f, bh, key, h);
    ClassesNonNegative(f, bh, key, h);
    var nNotDone := Round(fmap, eclass, bhtab, n, BucketOf(key, h));
    RearrangedAll(f, fmap[..], 0, n);
    PermMultiset(f, fmap[..]);
    RoundDoubles(b, f, bh, key, h, fmap[..], bhtab[..]);
    more := nNotDone != 0;
  }

  lemma ClassesNonNegative(fmap: seq<int>, bh: seq<bool>, eclass: seq<int>, h: nat)
    requires IsPerm(fmap) && 1 <= h <= |fmap| && Classes(eclass, fmap, bh, h)
    ensures forall p {:trigger eclass[p]} :: 0 <= p < |fmap| ==> eclass[p] >= 0
  {
    forall p | 0 <= p < |fmap| ensures eclass[p] >= 0 {
      var i := ClassOf(fmap, bh, eclass, h, p);
    }
  }
}
