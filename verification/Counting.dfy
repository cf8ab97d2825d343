/** Counting sorts: how often keys occur, where each key's bucket starts, and where a stable sort
    by key puts every position. */
module Counting {
  import opened Permutations

  ghost predicate Keys(l: seq<nat>, m: nat) {
    forall i :: 0 <= i < |l| ==> l[i] < m
  }

  /** Occurrences of c among the first i keys of l. */
  function Occ(l: seq<nat>, c: int, i: nat): (r: nat)
    requires i <= |l|
    ensures r <= i
  {
    if i == 0 then 0 else Occ(l, c, i - 1) + if l[i - 1] == c then 1 else 0
  }

  /** Keys smaller than c among the first i keys of l. */
  function Less(l: seq<nat>, c: nat, i: nat): (r: nat)
    requires i <= |l|
  {
    if c == 0 then 0 else Less(l, c - 1, i) + Occ(l, c - 1, i)
  }

  /** Where a stable sort by key puts position i. In the inverse Burrows-Wheeler transform this is
      the T vector: where row i goes when its last byte is moved to the front. */
  function T(l: seq<nat>, i: nat): (r: nat)
    requires i < |l|
  {
    Less(l, l[i], |l|) + Occ(l, l[i], i)
  }

  lemma {:induction false} LessStep(l: seq<nat>, c: nat, i: nat)
    requires i < |l|
    ensures Less(l, c, i + 1) == Less(l, c, i) + if l[i] < c then 1 else 0
  {
    if c > 0 { LessStep(l, c - 1, i); }
  }

  lemma {:induction false} LessBound(l: seq<nat>, c: nat, i: nat)
    requires i <= |l|
    ensures Less(l, c, i) <= i
  {
    if i == 0 {
      LessNone(l, c);
    } else {
      LessBound(l, c, i - 1);
      LessStep(l, c, i - 1);
    }
  }

  lemma {:induction false} LessAll(l: seq<nat>, m: nat, i: nat)
    requires i <= |l| && Keys(l, m)
    ensures Less(l, m, i) == i
  {
    if i == 0 {
      LessNone(l, m);
    } else {
      LessAll(l, m, i - 1);
      LessStep(l, m, i - 1);
    }
  }

  lemma {:induction false} LessNone(l: seq<nat>, c: nat)
    ensures Less(l, c, 0) == 0
  {
    if c > 0 { LessNone(l, c - 1); }
  }

  lemma {:induction false} LessMono(l: seq<nat>, c: nat, d: nat, i: nat)
    requires c <= d && i <= |l|
    ensures Less(l, c, i) <= Less(l, d, i)
    decreases d
  {
    if c < d { LessMono(l, c, d - 1, i); }
  }

  lemma {:induction false} OccMono(l: seq<nat>, c: int, i: nat, j: nat)
    requires i <= j <= |l|
    ensures Occ(l, c, i) <= Occ(l, c, j)
    decreases j
  {
    if i < j { OccMono(l, c, i, j - 1); }
  }

  /** T is inside the slots of its key, and those are inside the sequence. */
  lemma TBounds(l: seq<nat>, i: nat)
    requires i < |l|
    ensures Less(l, l[i], |l|) <= T(l, i) < Less(l, l[i] + 1, |l|) <= |l|
  {
    OccMono(l, l[i], i + 1, |l|);
    LessBound(l, l[i] + 1, |l|);
  }

  /** T sorts stably. */
  lemma TOrder(l: seq<nat>, i: nat, j: nat)
    requires i < |l| && j < |l|
    requires l[i] < l[j] || (l[i] == l[j] && i < j)
    ensures T(l, i) < T(l, j)
  {
    if l[i] < l[j] {
      TBounds(l, i);
      LessMono(l, l[i] + 1, l[j], |l|);
    } else {
      OccMono(l, l[i], i + 1, j);
    }
  }

  lemma TIsPerm(l: seq<nat>, t: seq<int>)
    requires |t| == |l| && forall i :: 0 <= i < |l| ==> t[i] == T(l, i)
    ensures IsPerm(t)
  {
    forall i | 0 <= i < |l| ensures 0 <= t[i] < |l| { TBounds(l, i); }
    forall i, j | 0 <= i < j < |l| ensures t[i] != t[j] {
      if l[i] <= l[j] { TOrder(l, i, j); } else { TOrder(l, j, i); }
    }
  }

  /** inv is the T^-1 vector of l. */
  ghost predicate IsTInverse(l: seq<nat>, inv: seq<int>) {
    && |inv| == |l|
    && (forall p :: 0 <= p < |l| ==> 0 <= inv[p] < |l|)
    && forall p {:trigger T(l, inv[p])} :: 0 <= p < |l| ==> T(l, inv[p]) == p
  }

  lemma THits(l: seq<nat>, p: nat) returns (i: nat)
    requires p < |l|
    ensures i < |l| && T(l, i) == p
  {
    var t := seq(|l|, i requires 0 <= i < |l| => T(l, i));
    TIsPerm(l, t);
    i := PermHits(t, p);
  }

  ghost function TInverseAt(l: seq<nat>, p: nat): (i: nat)
    requires p < |l|
    ensures i < |l| && T(l, i) == p
  {
    assert exists i :: 0 <= i < |l| && T(l, i) == p by { var i := THits(l, p); }
    var i :| 0 <= i < |l| && T(l, i) == p;
    i
  }

  /** The T^-1 vector of l. */
  ghost function TInverse(l: seq<nat>): (inv: seq<int>)
    ensures IsTInverse(l, inv)
  {
    seq(|l|, p requires 0 <= p < |l| => TInverseAt(l, p))
  }

  lemma InverseOfT(l: seq<nat>, inv: seq<int>, i: nat)
    requires IsTInverse(l, inv) && i < |l|
    ensures T(l, i) < |l| && inv[T(l, i)] == i
  {
    TBounds(l, i);
    var j := inv[T(l, i)];
    assert T(l, j) == T(l, i);
    if l[i] < l[j] || (l[i] == l[j] && i < j) { TOrder(l, i, j); }
    if l[j] < l[i] || (l[j] == l[i] && j < i) { TOrder(l, j, i); }
  }

  ghost function Places(s: seq<nat>, c: int, i: nat): (r: set<int>)
    requires i <= |s|
    ensures forall k :: k in r <==> 0 <= k < i && s[k] == c
  {
    set k: int | 0 <= k < i && s[k] == c
  }

  lemma {:induction false} OccPlaces(s: seq<nat>, c: int, i: nat)
    requires i <= |s|
    ensures Occ(s, c, i) == |Places(s, c, i)|
  {
    if i > 0 {
      OccPlaces(s, c, i - 1);
      assert Places(s, c, i) == Places(s, c, i - 1) + if s[i - 1] == c then {i - 1} else {};
    } else {
      assert Places(s, c, i) == {};
    }
  }
}
