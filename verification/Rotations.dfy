/** Blocks of bytes, their cyclic rotations as strings, and the order the block sort puts them in. */
module Rotations {
  import opened Permutations

  type Byte = b: int | 0 <= b < 256
  type Block = b: seq<Byte> | |b| > 0 witness [0]

  /** Index i taken round the end of a block of n bytes. */
  function Wrap(i: nat, n: nat): (r: nat)
    requires n > 0
    ensures r < n
  {
    if i < n then i else Wrap(i - n, n)
  }

  /** The block read as an endlessly repeating string. */
  function At(b: Block, i: nat): Byte {
    b[Wrap(i, |b|)]
  }

  /** Compares the k bytes from i with the k bytes from j: negative, zero or positive. */
  function Cmp(b: Block, i: nat, j: nat, k: nat): (r: int)
    ensures -1 <= r <= 1
    decreases k
  {
    if k == 0 then 0
    else if At(b, i) < At(b, j) then -1
    else if At(b, i) > At(b, j) then 1
    else Cmp(b, i + 1, j + 1, k - 1)
  }

  /** The rotation of b that starts at i, as a string. */
  function Rotation(b: Block, i: nat): (r: seq<Byte>)
    ensures |r| == |b|
  {
    seq<Byte>(|b|, t requires 0 <= t < |b| => At(b, i + t))
  }

  /** Dictionary order on strings. */
  predicate LexLe(s: seq<Byte>, t: seq<Byte>) {
    s == [] || (t != [] && (s[0] < t[0] || (s[0] == t[0] && LexLe(s[1..], t[1..]))))
  }

  /** order lists every rotation of b once, in dictionary order. */
  ghost predicate SortsRotations(b: Block, order: seq<int>) {
    && |order| == |b|
    && IsPerm(order)
    && forall i, j :: 0 <= i < j < |order| ==> LexLe(Rotation(b, order[i]), Rotation(b, order[j]))
  }

  lemma {:induction false} WrapAdd(i: nat, j: nat, n: nat)
    requires n > 0
    ensures Wrap(Wrap(i, n) + j, n) == Wrap(i + j, n)
  {
    if i >= n {
      WrapAdd(i - n, j, n);
    }
  }

  lemma WrapOnce(i: nat, n: nat)
    requires 0 < n && i < 2 * n
    ensures Wrap(i, n) == if i < n then i else i - n
  {
  }

  lemma {:induction false} CmpWrap(b: Block, i: nat, j: nat, k: nat)
    ensures Cmp(b, Wrap(i, |b|), j, k) == Cmp(b, i, j, k)
    ensures Cmp(b, j, Wrap(i, |b|), k) == Cmp(b, j, i, k)
    decreases k
  {
    if k > 0 {
      WrapAdd(i, 0, |b|);
      WrapAdd(i, 1, |b|);
      CmpWrap(b, i + 1, j + 1, k - 1);
      CmpWrap(b, Wrap(i, |b|) + 1, j + 1, k - 1);
    }
  }

  lemma CmpWrapBoth(b: Block, i: nat, j: nat, k: nat)
    ensures Cmp(b, Wrap(i, |b|), Wrap(j, |b|), k) == Cmp(b, i, j, k)
  {
    CmpWrap(b, i, j, k);
    CmpWrap(b, j, Wrap(i, |b|), k);
  }

  lemma CmpPeriod(b: Block, i: nat, j: nat, k: nat)
    ensures Cmp(b, i + |b|, j + |b|, k) == Cmp(b, i, j, k)
  {
    var n := |b|;
    assert Wrap(i + n, n) == Wrap(i, n) && Wrap(j + n, n) == Wrap(j, n);
    CmpWrapBoth(b, i + n, j + n, k);
    CmpWrapBoth(b, i, j, k);
  }

  lemma {:induction false} CmpFlip(b: Block, i: nat, j: nat, k: nat)
    ensures Cmp(b, i, j, k) == -Cmp(b, j, i, k)
    decreases k
  {
    if k > 0 { CmpFlip(b, i + 1, j + 1, k - 1); }
  }

  lemma {:induction false} CmpTrans(b: Block, i: nat, j: nat, l: nat, k: nat)
    requires Cmp(b, i, j, k) <= 0 && Cmp(b, j, l, k) <= 0
    ensures Cmp(b, i, l, k) <= 0
    ensures Cmp(b, i, l, k) == 0 ==> Cmp(b, i, j, k) == 0 && Cmp(b, j, l, k) == 0
    ensures Cmp(b, i, j, k) == 0 && Cmp(b, j, l, k) == 0 ==> Cmp(b, i, l, k) == 0
    decreases k
  {
    if k > 0 && At(b, i) == At(b, j) == At(b, l) {
      CmpTrans(b, i + 1, j + 1, l + 1, k - 1);
    }
  }

  /** Comparing h bytes and then, on a tie, the k bytes after them compares h + k bytes. */
  lemma {:induction false} CmpSplit(b: Block, i: nat, j: nat, h: nat, k: nat)
    ensures Cmp(b, i, j, h + k) == if Cmp(b, i, j, h) != 0 then Cmp(b, i, j, h) else Cmp(b, i + h, j + h, k)
    decreases h
  {
    if h > 0 { CmpSplit(b, i + 1, j + 1, h - 1, k); }
  }

  lemma {:induction false} CmpSelf(b: Block, i: nat, k: nat)
    ensures Cmp(b, i, i, k) == 0
    decreases k
  {
    if k > 0 { CmpSelf(b, i + 1, k - 1); }
  }

  /** Rotations that agree on a whole turn agree for ever. */
  lemma {:induction false} CmpTurn(b: Block, i: nat, j: nat, k: nat)
    requires Cmp(b, i, j, |b|) == 0
    ensures Cmp(b, i, j, k) == 0
    decreases k
  {
    var n := |b|;
    if k > n {
      CmpSplit(b, i, j, n, k - n);
      WrapAdd(i + n, 0, n); WrapAdd(j + n, 0, n);
      CmpWrap(b, i + n, j + n, k - n);
      CmpWrap(b, j + n, Wrap(i + n, n), k - n);
      CmpWrap(b, i, j, k - n);
      CmpWrap(b, j, Wrap(i, n), k - n);
      CmpTurn(b, i, j, k - n);
    } else {
      CmpSplit(b, i, j, k, n - k);
    }
  }

  /** Comparing a turn or more decides what comparing one turn decides. */
  lemma CmpEnough(b: Block, i: nat, j: nat, k: nat)
    requires k >= |b|
    ensures Cmp(b, i, j, k) == Cmp(b, i, j, |b|)
  {
    CmpSplit(b, i, j, |b|, k - |b|);
    if Cmp(b, i, j, |b|) == 0 { CmpTurn(b, i, j, k); }
  }

  ghost function Window(b: Block, i: nat, k: nat): (r: seq<Byte>)
    ensures |r| == k
  {
    seq<Byte>(k, t requires 0 <= t < k => At(b, i + t))
  }

  lemma {:induction false} CmpIsLex(b: Block, i: nat, j: nat, k: nat)
    ensures Cmp(b, i, j, k) <= 0 <==> LexLe(Window(b, i, k), Window(b, j, k))
    ensures Cmp(b, i, j, k) == 0 <==> Window(b, i, k) == Window(b, j, k)
    decreases k
  {
    if k > 0 {
      CmpIsLex(b, i + 1, j + 1, k - 1);
      assert Window(b, i, k) == [At(b, i)] + Window(b, i + 1, k - 1);
      assert Window(b, j, k) == [At(b, j)] + Window(b, j + 1, k - 1);
      assert Window(b, i, k)[1..] == Window(b, i + 1, k - 1);
      assert Window(b, j, k)[1..] == Window(b, j + 1, k - 1);
    }
  }

  /** The byte-by-byte comparison over one turn is the dictionary order of the rotations. */
  lemma CmpIsRotationOrder(b: Block, i: nat, j: nat)
    ensures Cmp(b, i, j, |b|) <= 0 <==> LexLe(Rotation(b, i), Rotation(b, j))
    ensures Cmp(b, i, j, |b|) == 0 <==> Rotation(b, i) == Rotation(b, j)
  {
    CmpIsLex(b, i, j, |b|);
    assert Window(b, i, |b|) == Rotation(b, i);
    assert Window(b, j, |b|) == Rotation(b, j);
  }

  ghost predicate SortedBy(b: Block, order: seq<int>, k: nat)
    requires forall i :: 0 <= i < |order| ==> order[i] >= 0
  {
    forall i, j :: 0 <= i < j < |order| ==> Cmp(b, order[i], order[j], k) <= 0
  }

  lemma SortedIsSorts(b: Block, order: seq<int>)
    requires IsPerm(order) && |order| == |b|
    ensures SortedBy(b, order, |b|) <==> SortsRotations(b, order)
  {
    forall i, j | 0 <= i < j < |order|
      ensures Cmp(b, order[i], order[j], |b|) <= 0 <==> LexLe(Rotation(b, order[i]), Rotation(b, order[j]))
    {
      CmpIsRotationOrder(b, order[i], order[j]);
    }
  }

  /** Two sorted orders of the same block may list equal rotations differently, but they
      list the same strings in the same places. */
  lemma SortedOrdersAgree(b: Block, p: seq<int>, q: seq<int>, k: nat)
    requires SortsRotations(b, p) && SortsRotations(b, q) && k < |b|
    ensures Rotation(b, p[k]) == Rotation(b, q[k])
  {
    SortedIsSorts(b, p);
    SortedIsSorts(b, q);
    NotBelow(b, p, q, k);
    NotBelow(b, q, p, k);
    CmpFlip(b, p[k], q[k], |b|);
    CmpIsRotationOrder(b, p[k], q[k]);
  }

  lemma CmpChain(b: Block, x: nat, y: nat, z: nat)
    requires Cmp(b, x, y, |b|) <= 0 && Cmp(b, y, z, |b|) < 0
    ensures Cmp(b, z, x, |b|) > 0
  {
    CmpTrans(b, x, y, z, |b|);
    CmpFlip(b, x, z, |b|);
  }

  /** Whatever p lists up to k, q lists before k, if row k of p is below row k of q. */
  lemma ListedEarlier(b: Block, p: seq<int>, q: seq<int>, k: nat, i: nat) returns (j: nat)
    requires |p| == |q| == |b| && IsPerm(p) && IsPerm(q) && i <= k < |b|
    requires SortedBy(b, p, |b|) && SortedBy(b, q, |b|)
    requires Cmp(b, p[k], q[k], |b|) < 0
    ensures j < k && q[j] == p[i]
  {
    if i == k { CmpSelf(b, p[i], |b|); }
    j := PermHits(q, p[i]);
    CmpChain(b, p[i], p[k], q[k]);
    if j == k { CmpSelf(b, p[i], |b|); }
  }

  lemma NotBelow(b: Block, p: seq<int>, q: seq<int>, k: nat)
    requires |p| == |q| == |b| && IsPerm(p) && IsPerm(q) && k < |b|
    requires SortedBy(b, p, |b|) && SortedBy(b, q, |b|)
    ensures Cmp(b, p[k], q[k], |b|) >= 0
  {
    if Cmp(b, p[k], q[k], |b|) < 0 {
      var low, high := p[..k + 1], q[..k];
      forall x | x in low ensures x in high {
        var i :| 0 <= i <= k && p[i] == x;
        var j := ListedEarlier(b, p, q, k, i);
        assert high[j] == x;
      }
      DistinctCardinality(low);
      DistinctCardinality(high);
      SubsetCardinality(Elems(low), Elems(high));
    }
  }
}
