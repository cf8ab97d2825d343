/** Sorting an array segment by segment: what a quicksort with an explicit stack of pending
    segments keeps true. Shared by both block sorts. */
module Segments {
  /** Positions lo..hi, both included; empty when hi == lo - 1. In the main sort, d is how many
      bytes the rotations there are known to agree on. */
  datatype Seg = Seg(lo: int, hi: int, d: int := 0)

  function Swap(s: seq<int>, i: int, j: int): (t: seq<int>)
    ensures |t| == |s|
  {
    if 0 <= i < |s| && 0 <= j < |s| then s[i := s[j]][j := s[i]] else s
  }

  /** s after the given exchanges, first to last. */
  function Swaps(s: seq<int>, ps: seq<(int, int)>): (t: seq<int>)
    ensures |t| == |s|
  {
    if ps == [] then s
    else
      var m := |ps| - 1;
      Swap(Swaps(s, ps[..m]), ps[m].0, ps[m].1)
  }

  ghost predicate Within(ps: seq<(int, int)>, lo: int, hi: int) {
    forall p :: p in ps ==> lo <= p.0 < hi && lo <= p.1 < hi
  }

  /** t is s with the positions lo..hi-1 rearranged by exchanges. */
  ghost predicate Rearranged(s: seq<int>, t: seq<int>, lo: int, hi: int) {
    exists ps :: Within(ps, lo, hi) && Swaps(s, ps) == t
  }

  lemma RearrangedSame(s: seq<int>, lo: int, hi: int)
    ensures Rearranged(s, s, lo, hi)
  {
    var none: seq<(int, int)> := [];
    assert Within(none, lo, hi) && Swaps(s, none) == s;
  }

  lemma RearrangedSwap(s: seq<int>, t: seq<int>, lo: int, hi: int, i: int, j: int)
    requires Rearranged(s, t, lo, hi) && lo <= i < hi && lo <= j < hi
    ensures Rearranged(s, Swap(t, i, j), lo, hi)
  {
    var ps :| Within(ps, lo, hi) && Swaps(s, ps) == t;
    var qs := ps + [(i, j)];
    assert qs[..|ps|] == ps;
    assert Within(qs, lo, hi) && Swaps(s, qs) == Swap(t, i, j);
  }

  lemma {:induction false} SwapsAppend(s: seq<int>, ps: seq<(int, int)>, qs: seq<(int, int)>)
    ensures Swaps(s, ps + qs) == Swaps(Swaps(s, ps), qs)
    decreases |qs|
  {
    if qs == [] {
      assert ps + qs == ps;
    } else {
      var m := |qs| - 1;
      assert (ps + qs)[..|ps| + m] == ps + qs[..m];
      SwapsAppend(s, ps, qs[..m]);
    }
  }

  lemma RearrangedTrans(s: seq<int>, t: seq<int>, u: seq<int>, lo: int, hi: int)
    requires Rearranged(s, t, lo, hi) && Rearranged(t, u, lo, hi)
    ensures Rearranged(s, u, lo, hi)
  {
    var ps :| Within(ps, lo, hi) && Swaps(s, ps) == t;
    var qs :| Within(qs, lo, hi) && Swaps(t, qs) == u;
    SwapsAppend(s, ps, qs);
    assert Within(ps + qs, lo, hi);
  }

  lemma RearrangedWider(s: seq<int>, t: seq<int>, lo: int, hi: int, lo': int, hi': int)
    requires Rearranged(s, t, lo, hi) && lo' <= lo && hi <= hi'
    ensures Rearranged(s, t, lo', hi')
  {
    var ps :| Within(ps, lo, hi) && Swaps(s, ps) == t;
    assert Within(ps, lo', hi');
  }

  lemma {:induction false} SwapsKeep(s: seq<int>, ps: seq<(int, int)>, lo: int, hi: int)
    requires Within(ps, lo, hi)
    ensures multiset(Swaps(s, ps)) == multiset(s)
    ensures forall i :: 0 <= i < |s| && !(lo <= i < hi) ==> Swaps(s, ps)[i] == s[i]
    decreases |ps|
  {
    if ps != [] { SwapsKeep(s, ps[..|ps| - 1], lo, hi); }
  }

  lemma RearrangedAll(s: seq<int>, t: seq<int>, lo: int, hi: int)
    requires Rearranged(s, t, lo, hi)
    ensures |s| == |t| && multiset(s) == multiset(t)
    ensures forall i :: 0 <= i < |s| && !(lo <= i < hi) ==> t[i] == s[i]
  {
    var ps :| Within(ps, lo, hi) && Swaps(s, ps) == t;
    SwapsKeep(s, ps, lo, hi);
  }

  lemma {:induction false} SwapsFrom(s: seq<int>, ps: seq<(int, int)>, lo: int, hi: int, i: int) returns (j: int)
    requires Within(ps, lo, hi) && 0 <= lo <= i < hi <= |s|
    ensures lo <= j < hi && Swaps(s, ps)[i] == s[j]
    decreases |ps|
  {
    if ps == [] {
      j := i;
    } else {
      var p := ps[|ps| - 1];
      assert p in ps;
      var i' := if i == p.0 then p.1 else if i == p.1 then p.0 else i;
      j := SwapsFrom(s, ps[..|ps| - 1], lo, hi, i');
    }
  }

  /** Every value in a rearranged stretch was there before. */
  lemma RearrangedFrom(s: seq<int>, t: seq<int>, lo: int, hi: int, i: int) returns (j: int)
    requires Rearranged(s, t, lo, hi) && 0 <= lo <= i < hi <= |s|
    ensures |t| == |s| && lo <= j < hi && t[i] == s[j]
  {
    var ps :| Within(ps, lo, hi) && Swaps(s, ps) == t;
    j := SwapsFrom(s, ps, lo, hi, i);
  }

  lemma {:induction false} SwapsTo(s: seq<int>, ps: seq<(int, int)>, lo: int, hi: int, j: int) returns (i: int)
    requires Within(ps, lo, hi) && 0 <= lo <= j < hi <= |s|
    ensures lo <= i < hi && Swaps(s, ps)[i] == s[j]
    decreases |ps|
  {
    i := j;
    if ps != [] {
      var p := ps[|ps| - 1];
      assert p in ps;
      var k := SwapsTo(s, ps[..|ps| - 1], lo, hi, j);
      i := if k == p.0 then p.1 else if k == p.1 then p.0 else k;
    }
  }

  /** Every value of a rearranged stretch is still there. */
  lemma RearrangedTo(s: seq<int>, t: seq<int>, lo: int, hi: int, j: int) returns (i: int)
    requires Rearranged(s, t, lo, hi) && 0 <= lo <= j < hi <= |s|
    ensures |t| == |s| && lo <= i < hi && t[i] == s[j]
  {
    var ps :| Within(ps, lo, hi) && Swaps(s, ps) == t;
    i := SwapsTo(s, ps, lo, hi, j);
  }

  ghost predicate Together(stack: seq<Seg>, i: int, j: int) {
    exists k :: 0 <= k < |stack| && stack[k].lo <= i && j <= stack[k].hi
  }

  ghost predicate Apart(stack: seq<Seg>) {
    forall a, b :: 0 <= a < b < |stack| ==> stack[a].hi < stack[b].lo || stack[b].hi < stack[a].lo
  }

  /** Positions lo..hi of s are in order, except perhaps inside one pending segment. */
  ghost predicate OrderedExcept(s: seq<int>, le: (int, int) -> bool, lo: int, hi: int, stack: seq<Seg>)
    requires 0 <= lo && hi < |s|
  {
    forall i, j {:trigger s[i], s[j]} :: lo <= i < j <= hi ==> le(s[i], s[j]) || Together(stack, i, j)
  }

  ghost predicate Ordered(s: seq<int>, le: (int, int) -> bool, lo: int, hi: int)
    requires 0 <= lo && hi < |s|
  {
    forall i, j {:trigger s[i], s[j]} :: lo <= i < j <= hi ==> le(s[i], s[j])
  }

  lemma AllPending(s: seq<int>, le: (int, int) -> bool, g: Seg)
    requires 0 <= g.lo && g.hi < |s|
    ensures OrderedExcept(s, le, g.lo, g.hi, [g])
  {
    var stack := [g];
    forall i, j {:trigger s[i], s[j]} | g.lo <= i < j <= g.hi ensures Together(stack, i, j) {
      assert stack[0].lo <= i && j <= stack[0].hi;
    }
  }

  lemma TogetherElsewhere(stack: seq<Seg>, top: Seg, i: int, j: int)
    requires Apart(stack + [top]) && Together(stack + [top], i, j)
    ensures Together(stack, i, j) || (top.lo <= i && j <= top.hi)
    ensures i <= j && (top.lo <= i <= top.hi || top.lo <= j <= top.hi) ==> top.lo <= i && j <= top.hi
  {
    var all := stack + [top];
    var k :| 0 <= k < |all| && all[k].lo <= i && j <= all[k].hi;
    if k < |stack| {
      assert all[k] == stack[k] && all[|stack|] == top;
      assert stack[k].hi < top.lo || top.hi < stack[k].lo;
    }
  }

  /** Rearranging one pending segment keeps everything else in order. */
  lemma RearrangeKeepsOrder(s: seq<int>, t: seq<int>,
      le: (int, int) -> bool, lo: int, hi: int, stack: seq<Seg>, top: Seg)
    requires 0 <= lo && hi < |s| && lo <= top.lo && top.hi <= hi && top.lo <= top.hi + 1
    requires Apart(stack + [top]) && OrderedExcept(s, le, lo, hi, stack + [top])
    requires |s| == |t| && Rearranged(s, t, top.lo, top.hi + 1)
    ensures forall i, j {:trigger t[i], t[j]} :: lo <= i < j <= hi ==>
      le(t[i], t[j]) || Together(stack, i, j) || (top.lo <= i && j <= top.hi)
  {
    RearrangedAll(s, t, top.lo, top.hi + 1);
    forall i, j {:trigger t[i], t[j]} | lo <= i < j <= hi && !Together(stack, i, j) && !(top.lo <= i && j <= top.hi)
      ensures le(t[i], t[j])
    {
      var i', j' := i, j;
      if top.lo <= i <= top.hi { i' := RearrangedFrom(s, t, top.lo, top.hi + 1, i); }
      if top.lo <= j <= top.hi { j' := RearrangedFrom(s, t, top.lo, top.hi + 1, j); }
      assert i' < j' && s[i'] == t[i] && s[j'] == t[j];
      if Together(stack + [top], i', j') { TogetherElsewhere(stack, top, i', j'); }
    }
  }

  lemma TogetherGrows(stack: seq<Seg>, more: seq<Seg>, i: int, j: int)
    ensures Together(stack, i, j) ==> Together(stack + more, i, j)
    ensures forall k :: 0 <= k < |more| && more[k].lo <= i && j <= more[k].hi ==> Together(stack + more, i, j)
  {
    var all := stack + more;
    if Together(stack, i, j) {
      var k :| 0 <= k < |stack| && stack[k].lo <= i && j <= stack[k].hi;
      assert all[k] == stack[k];
    }
    forall k | 0 <= k < |more| && more[k].lo <= i && j <= more[k].hi ensures Together(all, i, j) {
      assert all[|stack| + k] == more[k];
    }
  }

  /** A pending segment may be replaced by parts of it, if it is in order except inside them. */
  lemma SplitSegment(s: seq<int>, t: seq<int>, le: (int, int) -> bool, lo: int, hi: int, stack: seq<Seg>, top: Seg,
      parts: seq<Seg>)
    requires 0 <= lo && hi < |s| && lo <= top.lo && top.hi <= hi && top.lo <= top.hi + 1
    requires Apart(stack + [top]) && OrderedExcept(s, le, lo, hi, stack + [top])
    requires |s| == |t| && Rearranged(s, t, top.lo, top.hi + 1) && OrderedExcept(t, le, top.lo, top.hi, parts)
    ensures OrderedExcept(t, le, lo, hi, stack + parts)
  {
    RearrangeKeepsOrder(s, t, le, lo, hi, stack, top);
    forall i, j {:trigger t[i], t[j]} | lo <= i < j <= hi && !le(t[i], t[j]) ensures Together(stack + parts, i, j) {
      TogetherGrows(stack, parts, i, j);
    }
  }

  lemma ApartSplit(stack: seq<Seg>, top: Seg, parts: seq<Seg>)
    requires Apart(stack + [top]) && Apart(parts) && top.lo <= top.hi + 1
    requires forall k :: 0 <= k < |parts| ==> top.lo <= parts[k].lo && parts[k].hi <= top.hi
    ensures Apart(stack + parts)
  {
    var all, old_ := stack + parts, stack + [top];
    forall a, b | 0 <= a < b < |all| ensures all[a].hi < all[b].lo || all[b].hi < all[a].lo {
      if b < |stack| {
        assert old_[a] == all[a] && old_[b] == all[b];
      } else if a < |stack| {
        assert old_[a] == all[a] && old_[|stack|] == top && all[b] == parts[b - |stack|];
      } else {
        assert all[a] == parts[a - |stack|] && all[b] == parts[b - |stack|];
      }
    }
  }

  function Size(g: Seg): int { g.hi - g.lo + 1 }

  /** What is left to do when a segment g counts for w(g). */
  ghost function Work(stack: seq<Seg>, w: Seg -> nat): nat {
    if stack == [] then 0 else Work(stack[..|stack| - 1], w) + w(stack[|stack| - 1])
  }

  lemma {:induction false} WorkAppend(a: seq<Seg>, b: seq<Seg>, w: Seg -> nat)
    ensures Work(a + b, w) == Work(a, w) + Work(b, w)
    decreases |b|
  {
    if b == [] {
      assert a + b == a;
    } else {
      var m := |b| - 1;
      assert (a + b)[..|a| + m] == a + b[..m];
      WorkAppend(a, b[..m], w);
    }
  }

  lemma WorkFew(a: Seg, b: Seg, c: Seg, w: Seg -> nat)
    ensures Work([a], w) == w(a) && Work([a, b], w) == w(a) + w(b) && Work([a, b, c], w) == w(a) + w(b) + w(c)
  {
    assert [a][..0] == [] && [a, b][..1] == [a] && [a, b, c][..2] == [a, b];
  }

  /** Every pending segment lies in lo..hi and its size is within the cap for its place in the stack. */
  ghost predicate Tidy(stack: seq<Seg>, lo: int, hi: int, cap: nat -> nat) {
    && Apart(stack)
    && forall k {:trigger stack[k]} :: 0 <= k < |stack| ==>
         lo <= stack[k].lo <= stack[k].hi + 1 <= hi + 1 && Size(stack[k]) <= cap(k)
  }

  /** Parts that may be pushed in place of the segment top, which was at depth p of the stack. */
  ghost predicate Replaces(parts: seq<Seg>, top: Seg, p: nat, cap: nat -> nat) {
    && Apart(parts)
    && forall k {:trigger parts[k]} :: 0 <= k < |parts| ==>
         top.lo <= parts[k].lo <= parts[k].hi + 1 <= top.hi + 1 && Size(parts[k]) <= cap(p + k)
  }

  /** Popping top and pushing its parts keeps the stack tidy and does some of the work. */
  lemma StackAfter(rest: seq<Seg>, top: Seg, parts: seq<Seg>, lo: int, hi: int, cap: nat -> nat, w: Seg -> nat)
    requires Tidy(rest + [top], lo, hi, cap) && Replaces(parts, top, |rest|, cap) && Work(parts, w) < w(top)
    ensures Tidy(rest + parts, lo, hi, cap) && Work(rest + parts, w) < Work(rest + [top], w)
  {
    var was, now := rest + [top], rest + parts;
    assert was[|rest|] == top;
    forall k {:trigger now[k]} | 0 <= k < |now|
      ensures lo <= now[k].lo <= now[k].hi + 1 <= hi + 1 && Size(now[k]) <= cap(k)
    {
      if k < |rest| { assert was[k] == now[k]; } else { assert now[k] == parts[k - |rest|]; }
    }
    ApartSplit(rest, top, parts);
    WorkAppend(rest, parts, w);
    WorkAppend(rest, [top], w);
    WorkFew(top, top, top, w);
  }
}
