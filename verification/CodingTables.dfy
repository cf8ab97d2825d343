/** The refinement loop of sendMTFValues: each group of fifty symbols picks the cheapest table, and each
    table is rebuilt from the symbols of the groups that picked it. */
module CodingTables {
  import opened Bits
  import opened HuffmanTree
  import L = HuffmanLengths
  import C = Canonical
  import opened DecodeMachine
  import opened BlockFormat

  const N_ITERS := 4
  const MAX_LEN := 17

  /** How many tables to use. */
  function GroupCount(nMTF: nat): (n: nat)
    ensures 2 <= n <= N_GROUPS
  {
    if nMTF < 200 then 2 else if nMTF < 600 then 3 else if nMTF < 1200 then 4 else if nMTF < 2400 then 5 else 6
  }

  /** The bits symbols gs..ge-1 take with lengths len. */
  ghost function Cost(len: seq<nat>, syms: seq<int>, gs: nat, ge: nat): int
    requires gs <= ge <= |syms|
    decreases ge
  {
    if gs == ge then 0 else Cost(len, syms, gs, ge - 1) + if 0 <= syms[ge - 1] < |len| then len[syms[ge - 1]] else 0
  }

  ghost predicate InRange(syms: seq<int>, a: nat) {
    forall x {:trigger syms[x]} :: 0 <= x < |syms| ==> 0 <= syms[x] < a
  }

  ghost predicate Shaped(lens: seq<seq<nat>>, a: nat) {
    forall t {:trigger lens[t]} :: 0 <= t < |lens| ==> |lens[t]| == a
  }

  method GroupCost(mtfv: array<int>, len: seq<nat>, gs: nat, ge: nat, ghost syms: seq<int>) returns (c: int)
    requires gs <= ge <= |syms| <= mtfv.Length && InRange(syms, |len|)
    requires forall x {:trigger syms[x]} :: 0 <= x < |syms| ==> mtfv[x] == syms[x]
    ensures c == Cost(len, syms, gs, ge)
  {
    c := 0;
    for i := gs to ge
      invariant c == Cost(len, syms, gs, i)
    {
      assert mtfv[i] == syms[i];
      c := c + len[mtfv[i]];
    }
  }

  /** Table bt codes symbols gs..ge-1 in the fewest bits, and no table before it does. */
  ghost predicate First(lens: seq<seq<nat>>, syms: seq<int>, gs: nat, ge: nat, bt: int)
    requires gs <= ge <= |syms|
  {
    && 0 <= bt < |lens|
    && (forall t {:trigger lens[t]} :: 0 <= t < |lens| ==> Cost(lens[bt], syms, gs, ge) <= Cost(lens[t], syms, gs, ge))
    && (forall t {:trigger lens[t]} :: 0 <= t < bt ==> Cost(lens[bt], syms, gs, ge) < Cost(lens[t], syms, gs, ge))
  }

  /** The first of the cheapest tables for a group. */
  method Cheapest(mtfv: array<int>, lens: seq<seq<nat>>, gs: nat, ge: nat, ghost syms: seq<int>, ghost a: nat)
      returns (bt: int)
    requires gs <= ge <= |syms| <= mtfv.Length && InRange(syms, a) && Shaped(lens, a) && lens != []
    requires forall x {:trigger syms[x]} :: 0 <= x < |syms| ==> mtfv[x] == syms[x]
    ensures First(lens, syms, gs, ge, bt)
  {
    var bc := GroupCost(mtfv, lens[0], gs, ge, syms);
    bt := 0;
    for t := 1 to |lens|
      invariant 0 <= bt < t && bc == Cost(lens[bt], syms, gs, ge)
      invariant forall u {:trigger lens[u]} :: 0 <= u < t ==> bc <= Cost(lens[u], syms, gs, ge)
      invariant forall u {:trigger lens[u]} :: 0 <= u < bt ==> bc < Cost(lens[u], syms, gs, ge)
    {
      var c := GroupCost(mtfv, lens[t], gs, ge, syms);
      if c < bc { bc, bt := c, t; }
    }
  }

  /** Frequencies that count at most n symbols. */
  ghost predicate Counts(freq: seq<int>, a: nat, n: int) {
    |freq| == a && (forall i {:trigger freq[i]} :: 0 <= i < a ==> freq[i] >= 0) && Sum(freq) <= n
  }

  /** Counts the symbols of a group for its table. */
  method AddGroup(mtfv: array<int>, freq0: seq<int>, gs: nat, ge: nat, ghost syms: seq<int>, ghost a: nat, ghost n: int)
      returns (freq: seq<int>)
    requires gs <= ge <= |syms| <= mtfv.Length && InRange(syms, a) && Counts(freq0, a, n)
    requires forall x {:trigger syms[x]} :: 0 <= x < |syms| ==> mtfv[x] == syms[x]
    ensures Counts(freq, a, n + ge - gs)
    ensures forall v {:trigger freq[v]} :: 0 <= v < a ==> freq[v] == freq0[v] + multiset(syms[gs..ge])[v]
  {
    freq := freq0;
    assert syms[gs..gs] == [];
    for i := gs to ge
      invariant Counts(freq, a, n + i - gs)
      invariant forall v {:trigger freq[v]} :: 0 <= v < a ==> freq[v] == freq0[v] + multiset(syms[gs..i])[v]
    {
      assert mtfv[i] == syms[i];
      SumUpdate(freq, mtfv[i], freq[mtfv[i]] + 1);
      assert syms[gs..i + 1] == syms[gs..i] + [syms[i]];
      freq := freq[mtfv[i] := freq[mtfv[i]] + 1];
    }
  }

  ghost predicate AllCount(rfreq: seq<seq<int>>, a: nat, n: int) {
    forall t {:trigger rfreq[t]} :: 0 <= t < |rfreq| ==> Counts(rfreq[t], a, n)
  }

  /** How many of the first k symbols are v and belong to a group coded with table t. */
  ghost function Uses(sel: seq<int>, syms: seq<int>, t: int, v: int, k: nat): int
    requires k <= |syms| && k <= G_SIZE * |sel|
  {
    if k == 0 then 0
    else Uses(sel, syms, t, v, k - 1) + if sel[(k - 1) / G_SIZE] == t && syms[k - 1] == v then 1 else 0
  }

  /** The frequencies are those of the first k symbols. */
  ghost predicate Tallied(rfreq: seq<seq<int>>, sel: seq<int>, syms: seq<int>, a: nat, k: nat) {
    && k <= |syms| && k <= G_SIZE * |sel|
    && forall t, v {:trigger rfreq[t][v]} :: 0 <= t < |rfreq| && |rfreq[t]| == a && 0 <= v < a ==>
         rfreq[t][v] == Uses(sel, syms, t, v, k)
  }

  lemma {:induction false} UsesKept(sel: seq<int>, bt: int, syms: seq<int>, t: int, v: int, k: nat)
    requires k <= |syms| && k <= G_SIZE * |sel|
    ensures Uses(sel + [bt], syms, t, v, k) == Uses(sel, syms, t, v, k)
  {
    if k > 0 { UsesKept(sel, bt, syms, t, v, k - 1); }
  }

  lemma {:induction false} UsesGroup(sel: seq<int>, syms: seq<int>, t: int, v: int, gs: nat, k: nat)
    requires sel != [] && gs == G_SIZE * (|sel| - 1) <= k <= |syms| && k <= gs + G_SIZE
    ensures Uses(sel, syms, t, v, k) ==
      Uses(sel, syms, t, v, gs) + if sel[|sel| - 1] == t then multiset(syms[gs..k])[v] else 0
    decreases k
  {
    if gs < k {
      UsesGroup(sel, syms, t, v, gs, k - 1);
      assert syms[gs..k] == syms[gs..k - 1] + [syms[k - 1]];
      assert (k - 1) / G_SIZE == |sel| - 1;
    } else {
      assert syms[gs..gs] == [];
    }
  }

  lemma TallyMore(rfreq: seq<seq<int>>, next: seq<seq<int>>, sel: seq<int>, bt: int, syms: seq<int>, a: nat, gs: nat,
      ge: nat)
    requires Tallied(rfreq, sel, syms, a, gs) && gs == G_SIZE * |sel| <= ge <= |syms| && ge <= gs + G_SIZE
    requires 0 <= bt < |rfreq| == |next| && (forall t {:trigger rfreq[t]} :: 0 <= t < |rfreq| ==> |rfreq[t]| == a)
      && |next[bt]| == a
    requires forall t {:trigger next[t]} :: 0 <= t < |next| && t != bt ==> next[t] == rfreq[t]
    requires forall v {:trigger next[bt][v]} :: 0 <= v < a ==> next[bt][v] == rfreq[bt][v] + multiset(syms[gs..ge])[v]
    ensures Tallied(next, sel + [bt], syms, a, ge)
  {
    forall t, v {:trigger next[t][v]} | 0 <= t < |next| && |next[t]| == a && 0 <= v < a
      ensures next[t][v] == Uses(sel + [bt], syms, t, v, ge)
    {
      UsesKept(sel, bt, syms, t, v, gs);
      UsesGroup(sel + [bt], syms, t, v, gs, ge);
      assert rfreq[t][v] == Uses(sel, syms, t, v, gs);
    }
  }

  lemma {:induction false} ZeroSum(s: seq<int>)
    requires forall k {:trigger s[k]} :: 0 <= k < |s| ==> s[k] == 0
    ensures Sum(s) == 0
  {
    SumZeros(s);
  }

  /** The selectors of one pass: one for every group, each the cheapest table. */
  ghost predicate Picks(sel: seq<int>, lens: seq<seq<nat>>, syms: seq<int>, done: nat) {
    forall g {:trigger sel[g]} :: 0 <= g < |sel| ==>
      G_SIZE * g <= done <= |syms| && First(lens, syms, G_SIZE * g, GroupEnd(g, done), sel[g])
  }

  ghost function GroupEnd(g: nat, done: nat): (r: nat)
    ensures G_SIZE * g <= done ==> G_SIZE * g <= r <= done
  {
    if G_SIZE * g + G_SIZE <= done then G_SIZE * g + G_SIZE else done
  }

  /** One pass over the groups. */
  method SelectTables(mtfv: array<int>, nMTF: nat, lens: seq<seq<nat>>, ghost syms: seq<int>, a: nat)
      returns (sel: seq<int>, rfreq: seq<seq<int>>)
    requires nMTF == |syms| <= mtfv.Length && InRange(syms, a) && Shaped(lens, a) && lens != []
    requires forall x {:trigger syms[x]} :: 0 <= x < |syms| ==> mtfv[x] == syms[x]
    ensures Picks(sel, lens, syms, nMTF) && G_SIZE * |sel| < nMTF + G_SIZE && nMTF <= G_SIZE * |sel|
    ensures |rfreq| == |lens| && AllCount(rfreq, a, nMTF) && Tallied(rfreq, sel, syms, a, nMTF)
  {
    ghost var zero: seq<int> := seq(a, _ => 0);
    ZeroSum(zero);
    rfreq := seq(|lens|, _ => seq(a, _ => 0));
    assert forall t {:trigger rfreq[t]} :: 0 <= t < |rfreq| ==> rfreq[t] == zero;
    sel := [];
    var gs := 0;
    while gs < nMTF
      invariant 0 <= gs <= nMTF && Picks(sel, lens, syms, gs) && |rfreq| == |lens| && AllCount(rfreq, a, gs)
      invariant Tallied(rfreq, sel, syms, a, gs)
      invariant (gs < nMTF ==> gs == G_SIZE * |sel|) && G_SIZE * |sel| < nMTF + G_SIZE && gs <= G_SIZE * |sel|
    {
      var ge := gs + G_SIZE;
      if ge >= nMTF { ge := nMTF; }
      var bt := Cheapest(mtfv, lens, gs, ge, syms, a);
      PicksMore(sel, lens, syms, gs, ge, bt);
      var f := AddGroup(mtfv, rfreq[bt], gs, ge, syms, a, gs);
      TallyMore(rfreq, rfreq[bt := f], sel, bt, syms, a, gs, ge);
      sel := sel + [bt];
      rfreq := rfreq[bt := f];
      gs := ge;
    }
  }

  lemma PicksMore(sel: seq<int>, lens: seq<seq<nat>>, syms: seq<int>, gs: nat, ge: nat, bt: int)
    requires Picks(sel, lens, syms, gs) && gs == G_SIZE * |sel| && gs <= ge <= |syms| && ge <= gs + G_SIZE
    requires ge == |syms| || ge == gs + G_SIZE
    requires First(lens, syms, gs, ge, bt)
    ensures Picks(sel + [bt], lens, syms, ge)
  {
    var r := sel + [bt];
    forall g {:trigger r[g]} | 0 <= g < |r|
      ensures G_SIZE * g <= ge <= |syms| && First(lens, syms, G_SIZE * g, GroupEnd(g, ge), r[g])
    {
      if g < |sel| {
        assert r[g] == sel[g] && G_SIZE * g + G_SIZE <= gs;
        assert GroupEnd(g, ge) == GroupEnd(g, gs);
      }
    }
  }

  // ---- the tables to begin with ----

  const LESSER_ICOST := 0
  const GREATER_ICOST := 15

  /** The symbols from gs up to but not including e are the fewest that come up to the target, or all there are. */
  ghost predicate Reaches(freq: seq<int>, gs: int, e: int, target: int) {
    && 0 <= gs <= e <= |freq| && (e == |freq| || Sum(freq[gs..e]) >= target)
    && forall x {:trigger freq[gs..x]} :: gs <= x < e ==> Sum(freq[gs..x]) < target
  }

  /** The same, less the last of them when trimmed, if that leaves some. */
  ghost predicate IsPart(freq: seq<int>, gs: int, end: int, target: int, trim: bool) {
    exists e {:trigger Reaches(freq, gs, e, target)} ::
      Reaches(freq, gs, e, target) && end == if trim && e > gs + 1 then e - 1 else e
  }

  lemma SumMore(freq: seq<int>, gs: int, e: int)
    requires 0 <= gs <= e < |freq|
    ensures Sum(freq[gs..e + 1]) == Sum(freq[gs..e]) + freq[e]
  {
    assert freq[gs..e + 1][..e - gs] == freq[gs..e];
  }

  /** The symbols gs..ge that make up about one part of what is left. */
  method NextPart(mtfFreq: array<int>, gs: int, tFreq: int, a: nat, trim: bool) returns (ge: int, aFreq: int)
    requires 0 <= gs <= a <= mtfFreq.Length
    ensures gs - 1 <= ge < a && aFreq == Sum(mtfFreq[..a][gs..ge + 1])
    ensures IsPart(mtfFreq[..a], gs, ge + 1, tFreq, trim)
  {
    ghost var freq := mtfFreq[..a];
    ge, aFreq := gs - 1, 0;
    assert freq[gs..gs] == [];
    while aFreq < tFreq && ge < a - 1
      invariant gs - 1 <= ge < a && aFreq == Sum(freq[gs..ge + 1])
      invariant forall x {:trigger freq[gs..x]} :: gs <= x < ge + 1 ==> Sum(freq[gs..x]) < tFreq
      decreases a - ge
    {
      ge := ge + 1;
      SumMore(freq, gs, ge);
      aFreq := aFreq + mtfFreq[ge];
    }
    assert Reaches(freq, gs, ge + 1, tFreq);
    if ge > gs && trim {
      SumMore(freq, gs, ge);
      aFreq := aFreq - mtfFreq[ge];
      ge := ge - 1;
    }
  }

  /** The table that is cheap for the symbols from lo up to but not including hi. */
  ghost predicate CheapFor(len: seq<nat>, a: nat, lo: int, hi: int) {
    |len| == a && forall v {:trigger len[v]} :: 0 <= v < a ==> len[v] == if lo <= v < hi then 0 else 15
  }

  /** The alphabet is cut into parts of about the same frequency, from the left, and part k makes the table that is k-th
      from the end; every second part is trimmed, but the first and the last. */
  ghost predicate Parted(cuts: seq<int>, lens: seq<seq<nat>>, freq: seq<int>, nMTF: int, nGroups: nat, k: nat) {
    && |cuts| == k + 1 && |lens| == k <= nGroups && cuts[0] == 0
    && forall i {:trigger PartAt(cuts, lens, freq, nMTF, nGroups, i)} ::
         0 <= i < k ==> PartAt(cuts, lens, freq, nMTF, nGroups, i)
  }

  ghost predicate PartAt(cuts: seq<int>, lens: seq<seq<nat>>, freq: seq<int>, nMTF: int, nGroups: nat, i: int) {
    && 0 <= i < |lens| < |cuts| && i < nGroups && 0 <= cuts[i] <= cuts[i + 1] <= |freq|
    && IsPart(freq, cuts[i], cuts[i + 1], (nMTF - Sum(freq[..cuts[i]])) / (nGroups - i),
         0 < i < nGroups - 1 && i % 2 == 1)
    && CheapFor(lens[|lens| - 1 - i], |freq|, cuts[i], cuts[i + 1])
  }

  lemma PartMore(cuts: seq<int>, lens: seq<seq<nat>>, freq: seq<int>, nMTF: int, nGroups: nat, k: nat, len: seq<nat>,
      end: int)
    requires Parted(cuts, lens, freq, nMTF, nGroups, k) && k < nGroups && 0 <= cuts[k] <= end <= |freq|
      && CheapFor(len, |freq|, cuts[k], end)
    requires IsPart(freq, cuts[k], end, (nMTF - Sum(freq[..cuts[k]])) / (nGroups - k),
      0 < k < nGroups - 1 && k % 2 == 1)
    ensures Parted(cuts + [end], [len] + lens, freq, nMTF, nGroups, k + 1)
  {
    var c, l := cuts + [end], [len] + lens;
    forall i {:trigger PartAt(c, l, freq, nMTF, nGroups, i)} | 0 <= i < k + 1
      ensures PartAt(c, l, freq, nMTF, nGroups, i)
    {
      if i < k {
        assert PartAt(cuts, lens, freq, nMTF, nGroups, i);
        assert c[i] == cuts[i] && c[i + 1] == cuts[i + 1] && l[|l| - 1 - i] == lens[|lens| - 1 - i];
      }
    }
  }

  lemma {:induction false} SumJoin(freq: seq<int>, x: int, y: int)
    requires 0 <= x <= y <= |freq|
    ensures Sum(freq[..y]) == Sum(freq[..x]) + Sum(freq[x..y])
    decreases y
  {
    if x < y {
      SumJoin(freq, x, y - 1);
      SumMore(freq, 0, y - 1);
      SumMore(freq, x, y - 1);
      assert freq[0..y] == freq[..y] && freq[0..y - 1] == freq[..y - 1];
    } else {
      assert freq[x..x] == [];
    }
  }

  /** An initial set of tables: each one cheap for its own stretch of the alphabet. */
  method InitialTables(mtfFreq: array<int>, nMTF: nat, nGroups: nat, a: nat)
      returns (lens: seq<seq<nat>>, ghost cuts: seq<int>)
    requires a <= mtfFreq.Length && 0 < nGroups
    ensures |lens| == nGroups && Shaped(lens, a) && Parted(cuts, lens, mtfFreq[..a], nMTF, nGroups, nGroups)
  {
    ghost var freq := mtfFreq[..a];
    var nPart, remF, gs := nGroups, nMTF, 0;
    lens, cuts := [], [0];
    while nPart > 0
      invariant 0 <= gs <= a && nPart + |lens| == nGroups && nPart >= 0 && Shaped(lens, a)
      invariant Parted(cuts, lens, freq, nMTF, nGroups, nGroups - nPart) && cuts[nGroups - nPart] == gs
      invariant remF == nMTF - Sum(freq[..gs])
    {
      var ge, aFreq := NextPart(mtfFreq, gs, remF / nPart, a,
        nPart != nGroups && nPart != 1 && (nGroups - nPart) % 2 == 1);
      var len: seq<nat> := seq(a, v => if gs <= v <= ge then LESSER_ICOST else GREATER_ICOST);
      PartMore(cuts, lens, freq, nMTF, nGroups, nGroups - nPart, len, ge + 1);
      SumJoin(freq, gs, ge + 1);
      lens, cuts := [len] + lens, cuts + [ge + 1];
      nPart := nPart - 1;
      gs := ge + 1;
      remF := remF - aFreq;
    }
  }

  // ---- rebuilding the tables ----

  ghost predicate CodeTables(lens: seq<seq<nat>>, a: nat) {
    forall t {:trigger lens[t]} :: 0 <= t < |lens| ==> GoodLengths(lens[t], a) && C.Kraft(lens[t], C.LONGEST)
  }

  /** Every table is a complete code with lengths up to MAX_LEN. */
  ghost predicate AllComplete(lens: seq<seq<nat>>) {
    forall t {:trigger lens[t]} :: 0 <= t < |lens| ==> L.Complete(lens[t], MAX_LEN)
  }

  lemma CompleteFits(len: seq<nat>, a: nat)
    requires |len| == a <= MAX_ALPHA && L.Complete(len, MAX_LEN)
    ensures GoodLengths(len, a) && C.Kraft(len, C.LONGEST)
  {
    L.SharesScale(len, MAX_LEN, 3);
    PowAdd(MAX_LEN, 3);
  }

  /** The lengths left in an array. */
  method TakeLengths(le: array<int>, a: nat) returns (len: seq<nat>)
    requires le.Length == a <= MAX_ALPHA && L.Complete(le[..a], MAX_LEN)
    ensures GoodLengths(len, a) && C.Kraft(len, C.LONGEST) && L.Complete(len, MAX_LEN) && len == le[..a]
  {
    ghost var out := le[..a];
    len := [];
    for i := 0 to a
      invariant |len| == i && forall k {:trigger len[k]} :: 0 <= k < i ==> len[k] == out[k]
    {
      assert le[i] == out[i] >= 1;
      len := len + [le[i]];
    }
    assert len == out;
    CompleteFits(len, a);
  }

  /** The lengths are as good as those of any code for these frequencies, scaled as often as it took to fit them in. */
  ghost predicate Tuned(len: seq<nat>, freq: seq<int>) {
    exists r: nat {:trigger L.Fitted(len, freq, MAX_LEN, r)} :: L.Fitted(len, freq, MAX_LEN, r)
  }

  /** A complete code with short enough lengths, as good as any for these frequencies. */
  ghost predicate GoodTable(len: seq<nat>, a: nat, freq: seq<int>) {
    GoodLengths(len, a) && C.Kraft(len, C.LONGEST) && L.Complete(len, MAX_LEN) && Tuned(len, freq)
  }

  /** BZ2_hbMakeCodeLengths for one table. */
  method MakeTable(freq: seq<int>, a: nat, ghost n: int) returns (len: seq<nat>)
    requires 2 <= a <= MAX_ALPHA && Counts(freq, a, n) && n <= 900001
    ensures GoodTable(len, a, freq)
  {
    var fr := new int[a](i requires 0 <= i < a => freq[i]);
    assert fr[..] == freq;
    len := Lengthen(fr, a, n);
  }

  method Lengthen(fr: array<int>, a: nat, ghost n: int) returns (len: seq<nat>)
    requires 2 <= a <= MAX_ALPHA && Counts(fr[..], a, n) && n <= 900001
    ensures GoodLengths(len, a) && C.Kraft(len, C.LONGEST) && L.Complete(len, MAX_LEN) && Tuned(len, fr[..])
  {
    var le := new int[a];
    ghost var r := MakeLengths(le, fr, a, n);
    len := TakeLengths(le, a);
    assert L.Fitted(len, fr[..], MAX_LEN, r);
  }

  method MakeLengths(le: array<int>, fr: array<int>, a: nat, ghost n: int) returns (ghost r: nat)
    requires 2 <= a <= MAX_ALPHA && Counts(fr[..], a, n) && n <= 900001 && le.Length == a && le != fr
    modifies le
    ensures L.Complete(le[..a], MAX_LEN) && L.Fitted(le[..a], fr[..], MAX_LEN, r)
  {
    assert fr[..][..a] == fr[..];
    L.CompressorCall(fr[..], a);
    r := L.MakeCodeLengths(le, fr, a, MAX_LEN);
  }

  ghost predicate AllTuned(lens: seq<seq<nat>>, rfreq: seq<seq<int>>) {
    |lens| <= |rfreq| && forall t {:trigger lens[t]} :: 0 <= t < |lens| ==> Tuned(lens[t], rfreq[t])
  }

  lemma TablesAre(lens: seq<seq<nat>>, a: nat, rfreq: seq<seq<int>>)
    requires |lens| == |rfreq| && forall t {:trigger lens[t]} :: 0 <= t < |lens| ==> GoodTable(lens[t], a, rfreq[t])
    ensures CodeTables(lens, a) && AllComplete(lens) && AllTuned(lens, rfreq)
  {
    forall t {:trigger lens[t]} | 0 <= t < |lens| ensures GoodLengths(lens[t], a) && C.Kraft(lens[t], C.LONGEST) {
      assert GoodTable(lens[t], a, rfreq[t]);
    }
    forall t {:trigger lens[t]} | 0 <= t < |lens| ensures L.Complete(lens[t], MAX_LEN) && Tuned(lens[t], rfreq[t]) {
      assert GoodTable(lens[t], a, rfreq[t]);
    }
  }

  method MakeTables(rfreq: seq<seq<int>>, a: nat, ghost n: int) returns (lens: seq<seq<nat>>)
    requires 2 <= a <= MAX_ALPHA && AllCount(rfreq, a, n) && n <= 900001
    ensures |lens| == |rfreq| && CodeTables(lens, a) && AllComplete(lens) && AllTuned(lens, rfreq)
  {
    lens := [];
    for t := 0 to |rfreq|
      invariant |lens| == t && forall u {:trigger lens[u]} :: 0 <= u < t ==> GoodTable(lens[u], a, rfreq[u])
    {
      assert Counts(rfreq[t], a, n);
      var len := MakeTable(rfreq[t], a, n);
      lens := lens + [len];
    }
    TablesAre(lens, a, rfreq);
  }

  /** The frequencies for table t. */
  ghost function Tally(sel: seq<int>, syms: seq<int>, t: int, a: nat): (r: seq<int>)
    requires |syms| <= G_SIZE * |sel|
    ensures |r| == a && forall v {:trigger r[v]} :: 0 <= v < a ==> r[v] == Uses(sel, syms, t, v, |syms|)
  {
    seq(a, v => Uses(sel, syms, t, v, |syms|))
  }

  /** One pass: every group of fifty symbols picks a table of lens that codes it in the fewest bits, and every table is
      made anew for the symbols of the groups that picked it. */
  ghost predicate Passed(lens: seq<seq<nat>>, sel: seq<int>, next: seq<seq<nat>>, syms: seq<int>, a: nat) {
    && Picks(sel, lens, syms, |syms|) && |syms| <= G_SIZE * |sel| < |syms| + G_SIZE && |next| == |lens|
    && forall t {:trigger next[t]} :: 0 <= t < |next| ==> Tuned(next[t], Tally(sel, syms, t, a))
  }

  lemma PassedIs(lens: seq<seq<nat>>, sel: seq<int>, next: seq<seq<nat>>, syms: seq<int>, a: nat, rfreq: seq<seq<int>>)
    requires Picks(sel, lens, syms, |syms|) && |syms| <= G_SIZE * |sel| < |syms| + G_SIZE && |next| == |lens| == |rfreq|
    requires AllTuned(next, rfreq) && AllCount(rfreq, a, |syms|) && Tallied(rfreq, sel, syms, a, |syms|)
    ensures Passed(lens, sel, next, syms, a)
  {
    forall t {:trigger next[t]} | 0 <= t < |next| ensures Tuned(next[t], Tally(sel, syms, t, a)) {
      assert Counts(rfreq[t], a, |syms|);
      assert rfreq[t] == Tally(sel, syms, t, a) by {
        forall v | 0 <= v < a ensures rfreq[t][v] == Uses(sel, syms, t, v, |syms|) { }
      }
    }
  }

  /** One pass. */
  method Pass(mtfv: array<int>, nMTF: nat, lens: seq<seq<nat>>, ghost syms: seq<int>, a: nat)
      returns (next: seq<seq<nat>>, sel: seq<int>)
    requires nMTF == |syms| <= mtfv.Length && 0 < nMTF <= 900001 && 2 <= a <= MAX_ALPHA && InRange(syms, a)
      && Shaped(lens, a) && lens != []
    requires forall x {:trigger syms[x]} :: 0 <= x < |syms| ==> mtfv[x] == syms[x]
    ensures Passed(lens, sel, next, syms, a) && CodeTables(next, a) && AllComplete(next)
  {
    var rfreq;
    sel, rfreq := SelectTables(mtfv, nMTF, lens, syms, a);
    next := MakeTables(rfreq, a, nMTF);
    PassedIs(lens, sel, next, syms, a, rfreq);
  }

  /** A list of passes: sels[i] are the selectors of pass i, stages[i] the tables before it. */
  ghost predicate Passes(stages: seq<seq<seq<nat>>>, sels: seq<seq<int>>, syms: seq<int>, a: nat) {
    |stages| == |sels| + 1 && forall i {:trigger sels[i]} :: 0 <= i < |sels| ==>
      Passed(stages[i], sels[i], stages[i + 1], syms, a)
  }

  lemma PassesMore(stages: seq<seq<seq<nat>>>, sels: seq<seq<int>>, syms: seq<int>, a: nat, sel: seq<int>,
      next: seq<seq<nat>>)
    requires Passes(stages, sels, syms, a) && Passed(stages[|sels|], sel, next, syms, a)
    ensures Passes(stages + [next], sels + [sel], syms, a)
  {
  }

  /** Four passes from any tables to begin with. The selectors are those of the last pass. */
  method Refine(mtfv: array<int>, nMTF: nat, lens0: seq<seq<nat>>, ghost syms: seq<int>, a: nat)
      returns (lens: seq<seq<nat>>, sel: seq<int>, ghost stages: seq<seq<seq<nat>>>, ghost sels: seq<seq<int>>)
    requires nMTF == |syms| <= mtfv.Length && 0 < nMTF <= 900001 && 2 <= a <= MAX_ALPHA && InRange(syms, a)
      && Shaped(lens0, a) && lens0 != []
    requires forall x {:trigger syms[x]} :: 0 <= x < |syms| ==> mtfv[x] == syms[x]
    ensures |lens| == |lens0| && CodeTables(lens, a) && AllComplete(lens) && G_SIZE * |sel| < nMTF + G_SIZE
    ensures 1 <= |sel| <= MAX_SELECTORS && nMTF <= G_SIZE * |sel| && forall g {:trigger sel[g]} :: 0 <= g < |sel| ==>
      0 <= sel[g] < |lens|
    ensures Passes(stages, sels, syms, a) && |sels| == 4 && stages[0] == lens0 && stages[4] == lens && sels[3] == sel
  {
    lens, sel, stages, sels := lens0, [], [lens0], [];
    for iter := 0 to N_ITERS
      invariant |lens| == |lens0| && Shaped(lens, a) && (iter > 0 ==> CodeTables(lens, a) && AllComplete(lens))
      invariant Passes(stages, sels, syms, a) && |sels| == iter && stages[0] == lens0 && stages[iter] == lens
      invariant iter > 0 ==> sels[iter - 1] == sel
    {
      lens, sel := Pass(mtfv, nMTF, lens, syms, a);
      PassesMore(stages, sels, syms, a, sel, lens);
      stages, sels := stages + [lens], sels + [sel];
    }
    assert Passed(stages[3], sels[3], stages[4], syms, a);
    SelectorsWithin(stages[3], sel, lens, syms, a);
  }

  lemma SelectorsWithin(lens: seq<seq<nat>>, sel: seq<int>, next: seq<seq<nat>>, syms: seq<int>, a: nat)
    requires Passed(lens, sel, next, syms, a) && 0 < |syms| <= 900001
    ensures 1 <= |sel| <= MAX_SELECTORS && forall g {:trigger sel[g]} :: 0 <= g < |sel| ==> 0 <= sel[g] < |next|
  {
  }

  // ---- codes ----

  ghost predicate CodesFor(codes: seq<seq<int>>, lens: seq<seq<nat>>) {
    && |codes| == |lens|
    && forall t {:trigger codes[t]} :: 0 <= t < |lens| ==>
         |codes[t]| == |lens[t]| && forall i {:trigger codes[t][i]} :: 0 <= i < |lens[t]| ==>
           codes[t][i] == C.Code(lens[t], i)
  }

  /** The shortest and the longest length of a table. */
  method Extremes(len: seq<nat>, a: nat) returns (minLen: nat, maxLen: nat)
    requires GoodLengths(len, a) && a > 0
    ensures C.Lengths(len, minLen, maxLen)
  {
    minLen, maxLen := 32, 0;
    for i := 0 to |len|
      invariant forall k {:trigger len[k]} :: 0 <= k < i ==> minLen <= len[k] <= maxLen
      invariant maxLen <= C.LONGEST && (i > 0 ==> minLen <= maxLen)
    {
      if len[i] > maxLen { maxLen := len[i]; }
      if len[i] < minLen { minLen := len[i]; }
    }
  }

  method AssignTable(len: seq<nat>, a: nat) returns (code: seq<int>)
    requires GoodLengths(len, a) && a > 0
    ensures |code| == a && forall i {:trigger code[i]} :: 0 <= i < a ==> code[i] == C.Code(len, i)
  {
    var minLen, maxLen := Extremes(len, a);
    var length, co := new int[a](i requires 0 <= i < a => len[i]), new int[a];
    assert length[..a] == len;
    C.AssignCodes(co, length, minLen, maxLen, a, len);
    code := co[..];
  }

  /** Codes for all tables. */
  method AssignAll(lens: seq<seq<nat>>, a: nat) returns (codes: seq<seq<int>>)
    requires CodeTables(lens, a) && a > 0
    ensures CodesFor(codes, lens)
  {
    codes := [];
    for t := 0 to |lens|
      invariant |codes| == t
      invariant forall u {:trigger codes[u]} :: 0 <= u < t ==>
        |codes[u]| == |lens[u]| && forall i {:trigger codes[u][i]} :: 0 <= i < |lens[u]| ==>
          codes[u][i] == C.Code(lens[u], i)
    {
      var code := AssignTable(lens[t], a);
      codes := codes + [code];
    }
  }
}
