/** mainGtU: compares two rotations byte by byte, with the cached quadrants as shortcuts. */
module MainCompare {
  import opened Permutations
  import opened Rotations

  const N_OVERSHOOT := 34

  /** block is b with its first bytes repeated after the end. */
  ghost predicate Doubled(block: seq<int>, b: Block) {
    && N_OVERSHOOT < |b| && |b| + N_OVERSHOOT <= |block|
    && forall i {:trigger block[i]} :: 0 <= i < |b| + N_OVERSHOOT ==> block[i] == At(b, i)
  }

  /** A smaller quadrant on equal bytes means a rotation that does not come later, and the
      overshoot area repeats the first quadrants. */
  ghost predicate Quadrants(quadrant: seq<int>, b: Block) {
    && |b| + N_OVERSHOOT <= |quadrant|
    && (forall i, j {:trigger quadrant[i], quadrant[j]} ::
         0 <= i < |b| && 0 <= j < |b| && b[i] == b[j] && quadrant[i] < quadrant[j] ==>
          Cmp(b, i, j, |b|) <= 0)
    && forall i {:trigger quadrant[i]} :: |b| <= i < |b| + N_OVERSHOOT ==> quadrant[i] == quadrant[i - |b|]
  }

  /** rank numbers the rotations so that comparing numbers compares rotations. */
  ghost predicate Ranks(rank: seq<int>, b: Block) {
    && |rank| == |b|
    && forall p, q {:trigger Cmp(b, p, q, |b|)} :: 0 <= p < |b| && 0 <= q < |b| ==>
         (rank[p] <= rank[q] <==> Cmp(b, p, q, |b|) <= 0)
  }

  /** The rotations that come strictly before p. */
  ghost function Before(b: Block, p: nat): (r: set<int>)
    ensures forall x :: x in r <==> 0 <= x < |b| && Cmp(b, x, p, |b|) < 0
  {
    set x: int | 0 <= x < |b| && Cmp(b, x, p, |b|) < 0
  }

  lemma BeforeGrows(b: Block, p: nat, q: nat)
    requires Cmp(b, p, q, |b|) <= 0 && p < |b| && q < |b|
    ensures |Before(b, p)| <= |Before(b, q)|
    ensures Cmp(b, p, q, |b|) < 0 ==> |Before(b, p)| < |Before(b, q)|
  {
    forall x | x in Before(b, p) ensures x in Before(b, q) { CmpTrans(b, x, p, q, |b|); }
    if Cmp(b, p, q, |b|) < 0 {
      CmpSelf(b, p, |b|);
      SubsetCardinality(Before(b, p) + {p}, Before(b, q));
    } else {
      SubsetCardinality(Before(b, p), Before(b, q));
    }
  }

  /** Such numbers exist: count the rotations before each. */
  lemma RanksExist(b: Block) returns (rank: seq<int>)
    ensures Ranks(rank, b)
  {
    rank := seq(|b|, p requires 0 <= p < |b| => |Before(b, p)|);
    forall p, q {:trigger Cmp(b, p, q, |b|)} | 0 <= p < |b| && 0 <= q < |b|
      ensures rank[p] <= rank[q] <==> Cmp(b, p, q, |b|) <= 0
    {
      CmpFlip(b, p, q, |b|);
      if Cmp(b, p, q, |b|) <= 0 { BeforeGrows(b, p, q); } else { BeforeGrows(b, q, p); }
    }
  }

  /** gt is an answer the sort can work with: either one will do for equal rotations. */
  ghost predicate Answer(b: Block, x: nat, y: nat, gt: bool) {
    if gt then Cmp(b, x, y, |b|) >= 0 else Cmp(b, x, y, |b|) <= 0
  }

  /** After a tie on t bytes, what decides at offset t decides the whole comparison. */
  lemma Decided(b: Block, x: nat, y: nat, t: nat, k: nat)
    requires Cmp(b, x, y, t) == 0 && (k >= |b| || Cmp(b, x + t, y + t, k) != 0)
    ensures Cmp(b, x + t, y + t, k) <= 0 ==> Cmp(b, x, y, |b|) <= 0
    ensures Cmp(b, x + t, y + t, k) >= 0 ==> Cmp(b, x, y, |b|) >= 0
  {
    CmpSplit(b, x, y, t, k);
    if t + k >= |b| {
      CmpEnough(b, x, y, t + k);
    } else {
      CmpSplit(b, x, y, t + k, |b| - (t + k));
    }
  }

  /** Where the comparison stands: t bytes tied and the indices at offset t, perhaps wrapped. */
  ghost predicate Tied(b: Block, x: nat, y: nat, i1: int, i2: int, t: nat) {
    && 0 <= i1 && 0 <= i2 && Cmp(b, x, y, t) == 0
    && Wrap(i1, |b|) == Wrap(x + t, |b|) && Wrap(i2, |b|) == Wrap(y + t, |b|)
  }

  lemma ByteDecides(b: Block, x: nat, y: nat, i1: int, i2: int, t: nat)
    requires Tied(b, x, y, i1, i2, t)
    ensures At(b, i1) != At(b, i2) ==> Answer(b, x, y, At(b, i1) > At(b, i2))
    ensures At(b, i1) == At(b, i2) ==> Tied(b, x, y, i1 + 1, i2 + 1, t + 1)
  {
    if At(b, i1) != At(b, i2) {
      Decided(b, x, y, t, 1);
    } else {
      CmpSplit(b, x, y, t, 1);
      WrapAdd(i1, 1, |b|); WrapAdd(x + t, 1, |b|);
      WrapAdd(i2, 1, |b|); WrapAdd(y + t, 1, |b|);
    }
  }

  lemma QuadrantDecides(b: Block, quadrant: seq<int>, x: nat, y: nat, i1: int, i2: int, t: nat)
    requires Tied(b, x, y, i1, i2, t) && Quadrants(quadrant, b) && N_OVERSHOOT < |b|
    requires i1 < |b| + N_OVERSHOOT && i2 < |b| + N_OVERSHOOT && At(b, i1) == At(b, i2)
    ensures quadrant[i1] != quadrant[i2] ==> Answer(b, x, y, quadrant[i1] > quadrant[i2])
  {
    var n := |b|;
    var j1, j2 := Wrap(i1, n), Wrap(i2, n);
    WrapOnce(i1, n);
    WrapOnce(i2, n);
    assert quadrant[i1] == quadrant[j1] && quadrant[i2] == quadrant[j2];
    if quadrant[i1] != quadrant[i2] {
      CmpFlip(b, j1, j2, n);
      CmpWrapBoth(b, x + t, y + t, n);
      Decided(b, x, y, t, n);
    }
  }

  lemma TieIsAnswer(b: Block, x: nat, y: nat, t: nat)
    requires Cmp(b, x, y, t) == 0 && t >= |b|
    ensures Answer(b, x, y, false)
  {
    CmpEnough(b, x, y, t);
  }

  /** The first twelve byte comparisons, which do not look at quadrants. */
  method FirstBytes(block: array<int>, x: nat, y: nat, n: nat, ghost b: Block) returns (decided: bool, gt: bool)
    requires Doubled(block[..], b) && n == |b| && x <= n + 14 && y <= n + 14
    ensures decided ==> Answer(b, x, y, gt)
    ensures !decided ==> Tied(b, x, y, x + 12, y + 12, 12)
  {
    for t := 0 to 12
      invariant Tied(b, x, y, x + t, y + t, t)
    {
      var c1, c2 := block[x + t], block[y + t];
      assert c1 == block[..][x + t] && c2 == block[..][y + t];
      ByteDecides(b, x, y, x + t, y + t, t);
      if c1 != c2 { return true, c1 > c2; }
    }
    return false, false;
  }

  /** Eight steps that compare a byte and then a quadrant. */
  method EightSteps(block: array<int>, quadrant: array<int>, x: nat, y: nat, i1: nat, i2: nat, n: nat, ghost t: nat,
      ghost b: Block) returns (decided: bool, gt: bool)
    requires Doubled(block[..], b) && Quadrants(quadrant[..], b) && n == |b|
    requires i1 <= n + 26 && i2 <= n + 26 && Tied(b, x, y, i1, i2, t)
    ensures decided ==> Answer(b, x, y, gt)
    ensures !decided ==> Tied(b, x, y, i1 + 8, i2 + 8, t + 8)
  {
    for k := 0 to 8
      invariant Tied(b, x, y, i1 + k, i2 + k, t + k)
    {
      // i1 + k and i2 + k stay below n + N_OVERSHOOT
      var c1, c2 := block[i1 + k], block[i2 + k];
      assert c1 == block[..][i1 + k] && c2 == block[..][i2 + k];
      ByteDecides(b, x, y, i1 + k, i2 + k, t + k);
      if c1 != c2 { return true, c1 > c2; }
      var s1, s2 := quadrant[i1 + k], quadrant[i2 + k];
      QuadrantDecides(b, quadrant[..], x, y, i1 + k, i2 + k, t + k);
      if s1 != s2 { return true, s1 > s2; }
    }
    return false, false;
  }

  lemma TiedWrap(b: Block, x: nat, y: nat, i1: int, i2: int, t: nat)
    requires Tied(b, x, y, i1, i2, t)
    ensures Tied(b, x, y, if i1 >= |b| then i1 - |b| else i1, if i2 >= |b| then i2 - |b| else i2, t)
  {
  }

  /** mainGtU. x and y are starting points plus a depth of at most 15, and then no index it reads
      reaches n + N_OVERSHOOT. */
  method GtU(x: nat, y: nat, block: array<int>, quadrant: array<int>, n: nat, budget0: int, ghost b: Block)
      returns (gt: bool, budget: int)
    requires Doubled(block[..], b) && Quadrants(quadrant[..], b) && n == |b| && x <= n + 14 && y <= n + 14
    ensures Answer(b, x, y, gt)
  {
    budget := budget0;
    var decided;
    decided, gt := FirstBytes(block, x, y, n, b);
    if decided { return; }
    var i1, i2, k := x + 12, y + 12, n + 8;
    ghost var t := 12;
    while true
      invariant 0 <= i1 <= n + 26 && 0 <= i2 <= n + 26 && Tied(b, x, y, i1, i2, t)
      invariant t == 12 + (n + 8 - k) && k >= 0
      decreases k
    {
      decided, gt := EightSteps(block, quadrant, x, y, i1, i2, n, t, b);
      if decided { return; }
      TiedWrap(b, x, y, i1 + 8, i2 + 8, t + 8);
      i1, i2, t := i1 + 8, i2 + 8, t + 8;
      if i1 >= n { i1 := i1 - n; }
      if i2 >= n { i2 := i2 - n; }
      k := k - 8;
      budget := budget - 1;
      if k < 0 { break; }
    }
    TieIsAnswer(b, x, y, t);
    gt := false;
  }
}
