/** The Burrows-Wheeler transform: what the encoder sends for a sorted block, and what the
    decoder's T and T^-1 vectors are. */
module Bwt {
  import opened Permutations
  import opened Rotations
  import opened Counting

  /** The bytes before each sorted rotation: the column the encoder sends. */
  function LastColumn(b: Block, order: seq<int>): (l: seq<Byte>)
    requires |order| == |b| && forall i :: 0 <= i < |order| ==> order[i] >= 0
    ensures |l| == |b|
  {
    seq<Byte>(|b|, i requires 0 <= i < |b| => At(b, order[i] + |b| - 1))
  }

  /** k bytes of output when the decoder stands at row t: it emits l[t] and moves to T^-1 of t. */
  ghost function Walk(l: seq<Byte>, inv: seq<int>, t: int, k: nat): (r: seq<Byte>)
    requires |inv| == |l| && (forall p :: 0 <= p < |l| ==> 0 <= inv[p] < |l|) && 0 <= t < |l|
    ensures |r| == k
    decreases k
  {
    if k == 0 then [] else [l[t]] + Walk(l, inv, inv[t], k - 1)
  }

  /** What the decoder makes of a received column and origPtr. */
  ghost function Unsort(l: seq<Byte>, origPtr: nat): (b: seq<Byte>)
    requires origPtr < |l|
    ensures |b| == |l|
  {
    Walk(l, TInverse(l), TInverse(l)[origPtr], |l|)
  }

  lemma CmpNext(b: Block, i: nat, j: nat)
    requires Rotation(b, i) == Rotation(b, j)
    ensures Rotation(b, i + 1) == Rotation(b, j + 1)
  {
    CmpIsRotationOrder(b, i, j);
    CmpTurn(b, i, j, |b| + 1);
    CmpIsRotationOrder(b, i + 1, j + 1);
  }

  lemma RotationTurn(b: Block, i: nat)
    ensures Rotation(b, i + |b|) == Rotation(b, i)
  {
    forall t | 0 <= t < |b| ensures Rotation(b, i + |b|)[t] == Rotation(b, i)[t] {
      assert Rotation(b, i + |b|)[t] == At(b, i + |b| + t);
      assert Rotation(b, i)[t] == At(b, i + t);
      assert Wrap(i + t + |b|, |b|) == Wrap(i + t, |b|);
    }
  }

  /** The starting points of the rows that T^-1 leads to, each stepped back one byte. */
  ghost function SteppedBack(b: Block, order: seq<int>, inv: seq<int>): (q: seq<int>)
    requires IsPerm(order) && |order| == |inv| == |b| && forall p :: 0 <= p < |b| ==> 0 <= inv[p] < |b|
    ensures |q| == |b|
  {
    seq(|b|, p requires 0 <= p < |b| => Wrap(order[inv[p]] + |b| - 1, |b|))
  }

  lemma StepBackInjective(i: nat, j: nat, n: nat)
    requires i < n && j < n && Wrap(i + n - 1, n) == Wrap(j + n - 1, n)
    ensures i == j
  {
    if i > 0 { assert Wrap(i + n - 1, n) == Wrap(i - 1, n) == i - 1; }
    if j > 0 { assert Wrap(j + n - 1, n) == Wrap(j - 1, n) == j - 1; }
  }

  lemma SteppedBackPerm(b: Block, order: seq<int>, inv: seq<int>)
    requires IsPerm(order) && |order| == |b| && IsTInverse(LastColumn(b, order), inv)
    ensures IsPerm(SteppedBack(b, order, inv))
  {
    var l, q, n := LastColumn(b, order), SteppedBack(b, order, inv), |b|;
    forall p, p' | 0 <= p < p' < n ensures q[p] != q[p'] {
      assert T(l, inv[p]) != T(l, inv[p']);
      if q[p] == q[p'] { StepBackInjective(order[inv[p]], order[inv[p']], n); }
    }
  }

  lemma InverseOrder(l: seq<Byte>, inv: seq<int>, p: nat, p': nat)
    requires IsTInverse(l, inv) && p < p' < |l|
    ensures l[inv[p]] < l[inv[p']] || (l[inv[p]] == l[inv[p']] && inv[p] < inv[p'])
  {
    var i, i' := inv[p], inv[p'];
    assert T(l, i) == p && T(l, i') == p';
    if l[i] > l[i'] || (l[i] == l[i'] && i > i') { TOrder(l, i', i); }
  }

  lemma CmpStepBack(b: Block, i: nat, j: nat)
    requires var c, d := At(b, i + |b| - 1), At(b, j + |b| - 1);
             c < d || (c == d && Cmp(b, i, j, |b|) <= 0)
    ensures Cmp(b, Wrap(i + |b| - 1, |b|), Wrap(j + |b| - 1, |b|), |b|) <= 0
  {
    if Cmp(b, i, j, |b|) <= 0 { CmpShorter(b, i, j, |b|); }
    CmpWrapBoth(b, i + |b| - 1, j + |b| - 1, |b|);
  }

  lemma SteppedBackSorted(b: Block, order: seq<int>, inv: seq<int>)
    requires IsPerm(order) && |order| == |b| && SortedBy(b, order, |b|)
    requires IsTInverse(LastColumn(b, order), inv)
    ensures IsPerm(SteppedBack(b, order, inv)) && SortedBy(b, SteppedBack(b, order, inv), |b|)
  {
    SteppedBackPerm(b, order, inv);
    var l, q := LastColumn(b, order), SteppedBack(b, order, inv);
    forall p, p' | 0 <= p < p' < |b| ensures Cmp(b, q[p], q[p'], |b|) <= 0 {
      InverseOrder(l, inv, p, p');
      var i, j := inv[p], inv[p'];
      assert l[i] == At(b, order[i] + |b| - 1) && l[j] == At(b, order[j] + |b| - 1);
      CmpStepBack(b, order[i], order[j]);
    }
  }

  lemma CmpShorter(b: Block, i: nat, j: nat, k: nat)
    requires Cmp(b, i, j, k) <= 0 && k > 0
    ensures Cmp(b, i + |b|, j + |b|, k - 1) <= 0
  {
    CmpSplit(b, i, j, k - 1, 1);
    CmpPeriod(b, i, j, k - 1);
  }

  /** Moving the last byte of row i to the front gives the string of row T(i), even when
      several rows hold equal strings. */
  lemma RowShift(b: Block, order: seq<int>, inv: seq<int>, p: nat)
    requires SortsRotations(b, order) && IsTInverse(LastColumn(b, order), inv) && p < |b|
    ensures Rotation(b, order[inv[p]]) == Rotation(b, order[p] + 1)
  {
    var q, n := SteppedBack(b, order, inv), |b|;
    SortedIsSorts(b, order);
    SteppedBackSorted(b, order, inv);
    SortedIsSorts(b, q);
    SortedOrdersAgree(b, order, q, p);
    CmpNext(b, order[p], q[p]);
    var i := order[inv[p]];
    WrapAdd(i + n - 1, 1, n);
    RotationWrap(b, q[p] + 1, i + n);
    RotationTurn(b, i);
  }

  lemma RotationWrap(b: Block, i: nat, j: nat)
    requires Wrap(i, |b|) == Wrap(j, |b|)
    ensures Rotation(b, i) == Rotation(b, j)
  {
    forall t | 0 <= t < |b| ensures Rotation(b, i)[t] == Rotation(b, j)[t] {
      WrapAdd(i, t, |b|);
      WrapAdd(j, t, |b|);
    }
  }

  /** Standing at a row whose string is the rotation from s, the walk emits the block from s - 1 on. */
  lemma {:induction false} WalkReads(b: Block, order: seq<int>, inv: seq<int>, t: nat, s: nat, k: nat)
    requires SortsRotations(b, order) && IsTInverse(LastColumn(b, order), inv) && t < |b| && s > 0
    requires Rotation(b, order[t]) == Rotation(b, s)
    ensures forall x :: 0 <= x < k ==> Walk(LastColumn(b, order), inv, t, k)[x] == At(b, s - 1 + x)
    decreases k
  {
    if k > 0 {
      var l := LastColumn(b, order);
      LastByte(b, order, t, s);
      RowShift(b, order, inv, t);
      CmpNext(b, order[t], s);
      WalkReads(b, order, inv, inv[t], s + 1, k - 1);
      forall x | 0 <= x < k ensures Walk(l, inv, t, k)[x] == At(b, s - 1 + x) {
        if x > 0 { assert Walk(l, inv, t, k)[x] == Walk(l, inv, inv[t], k - 1)[x - 1]; }
      }
    }
  }

  lemma LastByte(b: Block, order: seq<int>, t: nat, s: nat)
    requires IsPerm(order) && |order| == |b| && t < |b| && s > 0 && Rotation(b, order[t]) == Rotation(b, s)
    ensures LastColumn(b, order)[t] == At(b, s - 1)
  {
    var n := |b|;
    assert LastColumn(b, order)[t] == Rotation(b, order[t])[n - 1];
    assert Rotation(b, s)[n - 1] == At(b, s + n - 1);
    assert Wrap(s - 1 + n, n) == Wrap(s - 1, n);
  }

  /** The decoder gives back the block for any sorted order the encoder may have used. */
  lemma UnsortInvertsSort(b: Block, order: seq<int>, origPtr: nat)
    requires SortsRotations(b, order) && origPtr < |b| && order[origPtr] == 0
    ensures Unsort(LastColumn(b, order), origPtr) == b
  {
    var l := LastColumn(b, order);
    var inv := TInverse(l);
    RowShift(b, order, inv, origPtr);
    WalkReads(b, order, inv, inv[origPtr], 1, |b|);
    forall x | 0 <= x < |b| ensures Unsort(l, origPtr)[x] == b[x] {
      assert Unsort(l, origPtr)[x] == At(b, x);
    }
  }

  /** Which sorting algorithm ran, and how it broke ties, does not show in the column sent. */
  lemma LastColumnUnique(b: Block, p: seq<int>, q: seq<int>)
    requires SortsRotations(b, p) && SortsRotations(b, q)
    ensures LastColumn(b, p) == LastColumn(b, q)
  {
    var n := |b|;
    forall k | 0 <= k < n ensures LastColumn(b, p)[k] == LastColumn(b, q)[k] {
      SortedOrdersAgree(b, p, q, k);
      assert Rotation(b, p[k])[n - 1] == Rotation(b, q[k])[n - 1];
      assert Rotation(b, p[k])[n - 1] == At(b, p[k] + n - 1);
      assert Rotation(b, q[k])[n - 1] == At(b, q[k] + n - 1);
    }
  }
}
