/** The three-way partition both quicksorts use. The value at position k is ranked by
    key[ptr[k] + d]; the fallback sort has d = 0 and its classes as keys, the main sort has the
    block as keys and the depth as d. */
module Partition {
  import opened Segments

  ghost predicate Indices(s: seq<int>, n: int) {
    forall i {:trigger s[i]} :: 0 <= i < |s| ==> 0 <= s[i] < n
  }

  lemma RearrangedIndices(s: seq<int>, t: seq<int>, lo: int, hi: int, n: int)
    requires Rearranged(s, t, lo, hi) && Indices(s, n)
    ensures |s| == |t| && Indices(t, n)
  {
    RearrangedAll(s, t, lo, hi);
    forall i | 0 <= i < |t| ensures 0 <= t[i] < n {
      assert t[i] in multiset(t);
      assert t[i] in multiset(s);
    }
  }

  /** Where the partition of lo..hi around med stands: equal values at both ends, then smaller
      ones on the left and larger ones on the right, and unLo..unHi not looked at yet. */
  ghost predicate Parts(s: seq<int>, key: seq<int>, med: int, lo: int, ltLo: int, unLo: int, unHi: int, gtHi: int,
      hi: int) {
    && 0 <= lo <= ltLo <= unLo <= unHi + 1 <= gtHi + 1 <= hi + 1 <= |s| && Indices(s, |key|)
    && (forall k {:trigger s[k]} :: lo <= k < ltLo ==> key[s[k]] == med)
    && (forall k {:trigger s[k]} :: ltLo <= k < unLo ==> key[s[k]] < med)
    && (forall k {:trigger s[k]} :: unHi < k <= gtHi ==> key[s[k]] > med)
    && (forall k {:trigger s[k]} :: gtHi < k <= hi ==> key[s[k]] == med)
  }

  /** The array is cur but for a hole at m: the entry at j moves there, and the hole to j. */
  method MoveHole(ptr: array<int>, m: int, j: int, ghost cur: seq<int>)
    requires 0 <= m < ptr.Length == |cur| && 0 <= j < ptr.Length && m != j && ptr[..] == cur[m := ptr[m]]
    modifies ptr
    ensures ptr[..] == Swap(cur, m, j)[j := ptr[j]]
  {
    assert ptr[j] == cur[j];
    ptr[m] := ptr[j];
  }

  method Exchange(ptr: array<int>, i: int, j: int, ghost was: seq<int>, ghost lo: int, ghost hi: int)
    requires 0 <= lo <= i < hi <= ptr.Length && lo <= j < hi && Rearranged(was, ptr[..], lo, hi)
    modifies ptr
    ensures ptr[..] == Swap(old(ptr[..]), i, j) && Rearranged(was, ptr[..], lo, hi)
  {
    RearrangedSwap(was, ptr[..], lo, hi, i, j);
    ptr[i], ptr[j] := ptr[j], ptr[i];
    assert ptr[..] == Swap(old(ptr[..]), i, j);
  }

  lemma PartsEqualUp(s: seq<int>, key: seq<int>, med: int, lo: int, ltLo: int, unLo: int, unHi: int, gtHi: int, hi: int)
    requires Parts(s, key, med, lo, ltLo, unLo, unHi, gtHi, hi) && unLo <= unHi && key[s[unLo]] == med
    ensures Parts(Swap(s, unLo, ltLo), key, med, lo, ltLo + 1, unLo + 1, unHi, gtHi, hi)
  {
  }

  lemma PartsEqualDown(s: seq<int>, key: seq<int>, med: int, lo: int, ltLo: int, unLo: int, unHi: int, gtHi: int,
      hi: int)
    requires Parts(s, key, med, lo, ltLo, unLo, unHi, gtHi, hi) && unLo <= unHi && key[s[unHi]] == med
    ensures Parts(Swap(s, unHi, gtHi), key, med, lo, ltLo, unLo, unHi - 1, gtHi - 1, hi)
  {
  }

  /** The scan from the left: stops at a larger value or when nothing is left. */
  method ScanUp(ptr: array<int>, key: array<int>, d: nat, med: int, lo: int, ltLo0: int, unLo0: int, unHi: int,
      ghost gtHi: int, ghost hi: int, ghost was: seq<int>, ghost ranks: seq<int>) returns (ltLo: int, unLo: int)
    requires ptr != key && d <= key.Length && ranks == key[d..] && Rearranged(was, ptr[..], lo, hi + 1)
    requires Parts(ptr[..], ranks, med, lo, ltLo0, unLo0, unHi, gtHi, hi)
    modifies ptr
    ensures Parts(ptr[..], ranks, med, lo, ltLo, unLo, unHi, gtHi, hi)
    ensures Rearranged(was, ptr[..], lo, hi + 1)
    ensures unLo0 <= unLo && (unLo <= unHi ==> ranks[ptr[unLo]] > med)
  {
    ltLo, unLo := ltLo0, unLo0;
    while unLo <= unHi
      invariant Parts(ptr[..], ranks, med, lo, ltLo, unLo, unHi, gtHi, hi)
      invariant Rearranged(was, ptr[..], lo, hi + 1) && unLo0 <= unLo
    {
      var n := key[ptr[unLo] + d] - med;
      assert n == ranks[ptr[unLo]] - med;
      if n == 0 {
        PartsEqualUp(ptr[..], ranks, med, lo, ltLo, unLo, unHi, gtHi, hi);
        Exchange(ptr, unLo, ltLo, was, lo, hi + 1);
        ltLo, unLo := ltLo + 1, unLo + 1;
      } else {
        if n > 0 { break; }
        unLo := unLo + 1;
      }
    }
  }

  /** The scan from the right meets a value that equals med. */
  method EqualDown(ptr: array<int>, ghost med: int, ghost lo: int, ghost ltLo: int, ghost unLo: int, unHi: int,
      gtHi: int, ghost hi: int, ghost was: seq<int>, ghost ranks: seq<int>)
    requires hi < ptr.Length && Rearranged(was, ptr[..], lo, hi + 1)
      && Parts(ptr[..], ranks, med, lo, ltLo, unLo, unHi, gtHi, hi)
    requires unLo <= unHi && ranks[ptr[unHi]] == med
    modifies ptr
    ensures Rearranged(was, ptr[..], lo, hi + 1) && Parts(ptr[..], ranks, med, lo, ltLo, unLo, unHi - 1, gtHi - 1, hi)
    ensures unLo < unHi ==> ptr[unLo] == old(ptr[unLo])
  {
    PartsEqualDown(ptr[..], ranks, med, lo, ltLo, unLo, unHi, gtHi, hi);
    Exchange(ptr, unHi, gtHi, was, lo, hi + 1);
    assert unLo < unHi ==> ptr[..][unLo] == old(ptr[..])[unLo];
  }

  /** The scan from the right: stops at a smaller value or when nothing is left. */
  method ScanDown(ptr: array<int>, key: array<int>, d: nat, med: int, ghost lo: int, ghost ltLo: int, unLo: int,
      unHi0: int, gtHi0: int, ghost hi: int, ghost was: seq<int>, ghost ranks: seq<int>) returns (unHi: int, gtHi: int)
    requires ptr != key && d <= key.Length && ranks == key[d..] && Rearranged(was, ptr[..], lo, hi + 1)
    requires Parts(ptr[..], ranks, med, lo, ltLo, unLo, unHi0, gtHi0, hi)
    modifies ptr
    ensures Parts(ptr[..], ranks, med, lo, ltLo, unLo, unHi, gtHi, hi)
    ensures Rearranged(was, ptr[..], lo, hi + 1)
    ensures unHi <= unHi0 && (unLo <= unHi ==> ranks[ptr[unHi]] < med)
    ensures unLo <= unHi0 ==> ptr[unLo] == old(ptr[unLo]) || unHi < unLo
  {
    unHi, gtHi := unHi0, gtHi0;
    while unLo <= unHi
      invariant Parts(ptr[..], ranks, med, lo, ltLo, unLo, unHi, gtHi, hi)
      invariant Rearranged(was, ptr[..], lo, hi + 1) && unHi <= unHi0
      invariant unLo <= unHi ==> ptr[unLo] == old(ptr[unLo])
    {
      var n := key[ptr[unHi] + d] - med;
      assert n == ranks[ptr[unHi]] - med;
      if n == 0 {
        EqualDown(ptr, med, lo, ltLo, unLo, unHi, gtHi, hi, was, ranks);
        unHi, gtHi := unHi - 1, gtHi - 1;
      } else {
        if n < 0 { break; }
        unHi := unHi - 1;
      }
    }
  }

  lemma PartsSwap(s: seq<int>, key: seq<int>, med: int, lo: int, ltLo: int, unLo: int, unHi: int, gtHi: int, hi: int)
    requires Parts(s, key, med, lo, ltLo, unLo, unHi, gtHi, hi) && unLo <= unHi
    requires key[s[unLo]] > med && key[s[unHi]] < med
    ensures Parts(Swap(s, unLo, unHi), key, med, lo, ltLo, unLo + 1, unHi - 1, gtHi, hi)
  {
  }

  /** Both scans in turn, with an exchange whenever both have stopped, until all is looked at. */
  method Scan(ptr: array<int>, key: array<int>, d: nat, med: int, lo: int, hi: int, ghost ranks: seq<int>)
      returns (ltLo: int, unLo: int, gtHi: int)
    requires ptr != key && d <= key.Length && ranks == key[d..]
    requires 0 <= lo <= hi < ptr.Length && Indices(ptr[..], |ranks|)
    modifies ptr
    ensures Parts(ptr[..], ranks, med, lo, ltLo, unLo, unLo - 1, gtHi, hi)
    ensures Rearranged(old(ptr[..]), ptr[..], lo, hi + 1)
  {
    ghost var was := ptr[..];
    RearrangedSame(was, lo, hi + 1);
    ltLo, unLo, gtHi := lo, lo, hi;
    var unHi := hi;
    while true
      invariant Parts(ptr[..], ranks, med, lo, ltLo, unLo, unHi, gtHi, hi)
      invariant Rearranged(was, ptr[..], lo, hi + 1)
      decreases unHi - unLo
    {
      ltLo, unLo := ScanUp(ptr, key, d, med, lo, ltLo, unLo, unHi, gtHi, hi, was, ranks);
      unHi, gtHi := ScanDown(ptr, key, d, med, lo, ltLo, unLo, unHi, gtHi, hi, was, ranks);
      if unLo > unHi { break; }
      PartsSwap(ptr[..], ranks, med, lo, ltLo, unLo, unHi, gtHi, hi);
      Exchange(ptr, unLo, unHi, was, lo, hi + 1);
      unLo, unHi := unLo + 1, unHi - 1;
    }
  }

  /** fvswap/mvswap applied to neighbouring stretches a..b-1 and b..c-1: the shorter one changes
      places with the far end of the other, which leaves the second kind before the first. */
  method Flip(ptr: array<int>, a: int, b: int, c: int, ghost lo: int, ghost hi: int,
      ghost first: int -> bool, ghost second: int -> bool)
    requires 0 <= lo <= a <= b <= c <= hi <= ptr.Length
    requires forall k {:trigger ptr[k]} :: a <= k < b ==> first(ptr[k])
    requires forall k {:trigger ptr[k]} :: b <= k < c ==> second(ptr[k])
    modifies ptr
    ensures Rearranged(old(ptr[..]), ptr[..], lo, hi)
    ensures forall k {:trigger ptr[k]} :: a <= k < a + c - b ==> second(ptr[k])
    ensures forall k {:trigger ptr[k]} :: a + c - b <= k < c ==> first(ptr[k])
    ensures forall k {:trigger ptr[k]} :: 0 <= k < ptr.Length && !(a <= k < c) ==> ptr[k] == old(ptr[k])
  {
    ghost var was := ptr[..];
    RearrangedSame(was, lo, hi);
    var n := if b - a < c - b then b - a else c - b;
    var p1, p2, yyn := a, c - n, n;
    while yyn > 0
      invariant 0 <= yyn <= n && p1 == a + n - yyn && p2 == c - yyn
      invariant Rearranged(was, ptr[..], lo, hi)
      invariant forall k {:trigger ptr[k]} :: a <= k < p1 ==> second(ptr[k])
      invariant forall k {:trigger ptr[k]} :: c - n <= k < p2 ==> first(ptr[k])
      invariant forall k {:trigger ptr[k]} ::
        0 <= k < |was| && !(a <= k < p1) && !(c - n <= k < p2) ==> ptr[k] == was[k]
    {
      Exchange(ptr, p1, p2, was, lo, hi);
      p1, p2, yyn := p1 + 1, p2 + 1, yyn - 1;
    }
  }

  /** The outcome: smaller values in lo..n, med in n+1..m-1, larger values in m..hi. */
  ghost predicate Split(s: seq<int>, ranks: seq<int>, med: int, lo: int, n: int, m: int, hi: int) {
    && 0 <= lo <= n + 1 <= m <= hi + 1 <= |s| && Indices(s, |ranks|)
    && (forall k {:trigger s[k]} :: lo <= k <= n ==> ranks[s[k]] < med)
    && (forall k {:trigger s[k]} :: n < k < m ==> ranks[s[k]] == med)
    && (forall k {:trigger s[k]} :: m <= k <= hi ==> ranks[s[k]] > med)
  }

  /** Partitions lo..hi around med; same says that every value there equals med. */
  method ThreeWay(ptr: array<int>, key: array<int>, d: nat, med: int, lo: int, hi: int, ghost ranks: seq<int>)
      returns (same: bool, n: int, m: int)
    requires ptr != key && d <= key.Length && ranks == key[d..]
    requires 0 <= lo <= hi < ptr.Length && Indices(ptr[..], |ranks|)
    modifies ptr
    ensures Rearranged(old(ptr[..]), ptr[..], lo, hi + 1)
    ensures Split(ptr[..], ranks, med, lo, n, m, hi)
    ensures same ==> n == lo - 1 && m == hi + 1
  {
    ghost var was := ptr[..];
    var ltLo, unLo, gtHi := Scan(ptr, key, d, med, lo, hi, ranks);
    if gtHi < ltLo {
      return true, lo - 1, hi + 1;
    }
    same := false;
    ghost var mid := ptr[..];
    n, m := FlipBoth(ptr, med, lo, ltLo, unLo, gtHi, hi, ranks);
    RearrangedTrans(was, mid, ptr[..], lo, hi + 1);
  }

  /** Brings the values that equal med from both ends to the middle. */
  method FlipBoth(ptr: array<int>, ghost med: int, lo: int, ltLo: int, unLo: int, gtHi: int, hi: int,
      ghost ranks: seq<int>)
      returns (n: int, m: int)
    requires hi < ptr.Length && ltLo <= gtHi && Parts(ptr[..], ranks, med, lo, ltLo, unLo, unLo - 1, gtHi, hi)
    modifies ptr
    ensures Rearranged(old(ptr[..]), ptr[..], lo, hi + 1)
    ensures Split(ptr[..], ranks, med, lo, n, m, hi)
  {
    ghost var was := ptr[..];
    ghost var eq := x => 0 <= x < |ranks| && ranks[x] == med;
    ghost var lt := x => 0 <= x < |ranks| && ranks[x] < med;
    ghost var gt := x => 0 <= x < |ranks| && ranks[x] > med;
    Flip(ptr, lo, ltLo, unLo, lo, hi + 1, eq, lt);
    ghost var mid := ptr[..];
    Flip(ptr, unLo, gtHi + 1, hi + 1, lo, hi + 1, gt, eq);
    RearrangedTrans(was, mid, ptr[..], lo, hi + 1);
    RearrangedIndices(was, ptr[..], lo, hi + 1, |ranks|);
    n, m := lo + unLo - ltLo - 1, hi - (gtHi - (unLo - 1)) + 1;
  }

  /** A median taken from the stretch is still in it, so both outer parts are shorter. */
  lemma SplitShorter(was: seq<int>, s: seq<int>, ranks: seq<int>, med: int, lo: int, n: int, m: int, hi: int, x: int)
    requires Split(s, ranks, med, lo, n, m, hi) && |was| == |s| && Rearranged(was, s, lo, hi + 1)
    requires lo <= x <= hi && 0 <= was[x] < |ranks| && ranks[was[x]] == med
    ensures n + 1 < m
  {
    var i := RearrangedTo(was, s, lo, hi + 1, x);
    assert ranks[s[i]] == med;
  }
}
