/** The extension grouping of AdcHub::searchToken: a list of file extensions is sent as some predefined groups,
    less a few extensions (RX), plus the rest one by one (EX). Extensions are given by their places in
    alphabetical order, the only thing the code uses of them. */
module ExtGroups {
  import Permutations

  /** In alphabetical order, without duplicates. */
  ghost predicate Sorted(s: seq<int>) { forall i, j {:trigger s[i], s[j]} :: 0 <= i < j < |s| ==> s[i] < s[j] }

  lemma SortedMore(s: seq<int>, x: int)
    requires Sorted(s) && forall y {:trigger y in s} :: y in s ==> y < x
    ensures Sorted(s + [x])
  {
    forall i | 0 <= i < |s| ensures s[i] < x { assert s[i] in s; }
  }

  /** x is in exactly one of a and b. */
  ghost predicate OneOf(x: int, a: seq<int>, b: seq<int>) { (x in a) != (x in b) }

  lemma SuffixOut(s: seq<int>, i: nat, x: int)
    requires Sorted(s) && i <= |s| && (i < |s| ==> x < s[i])
    ensures x !in s[i..]
  {
  }

  lemma SuffixNext(s: seq<int>, i: nat)
    requires Sorted(s) && i < |s|
    ensures forall x {:trigger x in s[i..]} {:trigger x in s[i + 1..]} :: x in s[i..] <==> x == s[i] || x in s[i + 1..]
    ensures s[i] !in s[i + 1..]
  {
    assert s[i..] == [s[i]] + s[i + 1..];
    SuffixOut(s, i + 1, s[i]);
  }

  /** What the merge still has to do: everything behind i and j that is in just one of the two. */
  ghost predicate Merging(a: seq<int>, b: seq<int>, i: nat, j: nat, r: seq<int>) {
    && i <= |a| && j <= |b| && Sorted(r)
    && (forall x {:trigger x in r} {:trigger OneOf(x, a, b)} :: x in r || OneOf(x, a[i..], b[j..]) <==> OneOf(x, a, b))
    && (forall x {:trigger x in r} :: x in r ==> (i < |a| ==> x < a[i]) && (j < |b| ==> x < b[j]))
  }

  lemma TakeLeft(a: seq<int>, b: seq<int>, i: nat, j: nat, r: seq<int>)
    requires Sorted(a) && Sorted(b) && Merging(a, b, i, j, r) && i < |a| && (j < |b| ==> a[i] < b[j])
    ensures Merging(a, b, i + 1, j, r + [a[i]])
  {
    SortedMore(r, a[i]);
    SuffixNext(a, i);
    SuffixOut(b, j, a[i]);
  }

  lemma Swapped(a: seq<int>, b: seq<int>, i: nat, j: nat, r: seq<int>)
    requires Merging(a, b, i, j, r)
    ensures Merging(b, a, j, i, r)
  {
  }

  lemma SkipBoth(a: seq<int>, b: seq<int>, i: nat, j: nat, r: seq<int>)
    requires Sorted(a) && Sorted(b) && Merging(a, b, i, j, r) && i < |a| && j < |b| && a[i] == b[j]
    ensures Merging(a, b, i + 1, j + 1, r)
  {
    SuffixNext(a, i);
    SuffixNext(b, j);
  }

  /** set_symmetric_difference of two sorted lists. */
  method SymmetricDifference(a: seq<int>, b: seq<int>) returns (r: seq<int>)
    requires Sorted(a) && Sorted(b)
    ensures Sorted(r) && forall x {:trigger x in r} :: x in r <==> OneOf(x, a, b)
  {
    var i, j := 0, 0;
    r := [];
    assert a[0..] == a && b[0..] == b;
    while i < |a| || j < |b|
      invariant 0 <= i <= |a| && 0 <= j <= |b| && Merging(a, b, i, j, r)
      decreases |a| - i + |b| - j
    {
      if j == |b| || (i < |a| && a[i] < b[j]) {
        TakeLeft(a, b, i, j, r);
        r, i := r + [a[i]], i + 1;
      } else if i == |a| || b[j] < a[i] {
        Swapped(a, b, i, j, r);
        TakeLeft(b, a, j, i, r);
        r, j := r + [b[j]], j + 1;
        Swapped(b, a, j, i, r);
      } else {
        SkipBoth(a, b, i, j, r);
        i, j := i + 1, j + 1;
      }
    }
    assert a[i..] == [] && b[j..] == [];
  }

  /** Splits what is in one list only into what the group has too much (at most two, or the group will not do)
      and what is still to be sent. */
  method SplitDifference(temp: seq<int>, def: seq<int>) returns (ok: bool, rx: seq<int>, rest: seq<int>)
    requires Sorted(temp)
    ensures |rx| <= 2 && Sorted(rx) && (!ok ==> |rx| == 2 && exists x :: x in temp && x in def && x !in rx)
    ensures forall x {:trigger x in rx} :: x in rx ==> x in temp && x in def
    ensures ok ==> Sorted(rest)
    ensures ok ==> forall x {:trigger x in rest} :: x in rest <==> x in temp && x !in def
    ensures ok ==> forall x {:trigger x in rx} :: x in rx <==> x in temp && x in def
  {
    ok, rx, rest := true, [], [];
    assert temp[..0] == [];
    for d := 0 to |temp|
      invariant ok && |rx| <= 2 && Sorted(rest) && Sorted(rx)
      invariant forall x {:trigger x in rest} :: x in rest <==> x in temp[..d] && x !in def
      invariant forall x {:trigger x in rx} :: x in rx <==> x in temp[..d] && x in def
    {
      PrefixNext(temp, d);
      if temp[d] !in def {
        SortedMore(rest, temp[d]);
        rest := rest + [temp[d]];
      } else {
        if |rx| == 2 {
          assert temp[d] in temp && temp[d] !in rx;
          return false, rx, rest;
        }
        SortedMore(rx, temp[d]);
        rx := rx + [temp[d]];
      }
    }
    assert temp[..|temp|] == temp;
  }

  lemma PrefixNext(s: seq<int>, d: nat)
    requires Sorted(s) && d < |s|
    ensures forall x {:trigger x in s[..d + 1]} :: x in s[..d + 1] <==> x in s[..d] || x == s[d]
    ensures forall x {:trigger x in s[..d]} :: x in s[..d] ==> x < s[d] && x in s
    ensures s[d] in s
  {
    assert s[..d + 1] == s[..d] + [s[d]];
    forall x {:trigger x in s[..d]} | x in s[..d] ensures x < s[d] && x in s {
      var k :| 0 <= k < |s[..d]| && s[..d][k] == x;
      assert s[k] == x;
    }
  }

  // ---- choosing groups ----

  /** The group tables: sorted, and no extension in two of them. */
  ghost predicate GoodGroups(groups: seq<seq<int>>) {
    && (forall g {:trigger groups[g]} :: 0 <= g < |groups| ==> Sorted(groups[g]))
    && forall g, h, x {:trigger x in groups[g], groups[h]} ::
         0 <= g < |groups| && 0 <= h < |groups| && g != h && x in groups[g] ==> x !in groups[h]
  }

  /** x is in a chosen group. */
  ghost predicate InChosen(x: int, gr: seq<bool>, groups: seq<seq<int>>)
    requires |gr| <= |groups|
  {
    exists g :: 0 <= g < |gr| && gr[g] && x in groups[g]
  }

  /** What a receiver makes of the query: the chosen groups, without RX, with EX. */
  ghost predicate Asked(x: int, gr: seq<bool>, groups: seq<seq<int>>, rx: seq<int>, ex: seq<int>)
    requires |gr| <= |groups|
  {
    (InChosen(x, gr, groups) && x !in rx) || x in ex
  }

  /** The query means the extensions orig, rx takes things out of chosen groups only, and what is still to be
      sent is in none of them. */
  ghost predicate Means(orig: seq<int>, gr: seq<bool>, groups: seq<seq<int>>, rx: seq<int>, ex: seq<int>)
    requires |gr| <= |groups|
  {
    && (forall x {:trigger x in orig} :: x in orig <==> Asked(x, gr, groups, rx, ex))
    && (forall x {:trigger x in rx} :: x in rx ==> InChosen(x, gr, groups))
    && (forall x {:trigger x in ex} :: x in ex ==> !InChosen(x, gr, groups))
  }

  lemma ChosenMore(gr: seq<bool>, groups: seq<seq<int>>, b: bool, x: int)
    requires |gr| < |groups|
    ensures InChosen(x, gr + [b], groups) <==> InChosen(x, gr, groups) || (b && x in groups[|gr|])
  {
    var h := gr + [b];
    if InChosen(x, gr, groups) {
      var g :| 0 <= g < |gr| && gr[g] && x in groups[g];
      assert h[g];
    }
    if b && x in groups[|gr|] { assert h[|gr|]; }
    if InChosen(x, h, groups) {
      var g :| 0 <= g < |h| && h[g] && x in groups[g];
      if g < |gr| { assert gr[g]; }
    }
  }

  /** Passing a group over changes nothing. */
  lemma Passed(orig: seq<int>, gr: seq<bool>, groups: seq<seq<int>>, rx: seq<int>, ex: seq<int>)
    requires |gr| < |groups| && Means(orig, gr, groups, rx, ex)
    ensures Means(orig, gr + [false], groups, rx, ex)
  {
    forall x
      ensures InChosen(x, gr + [false], groups) <==> InChosen(x, gr, groups)
    {
      ChosenMore(gr, groups, false, x);
    }
  }

  /** One extension, before and after group def is taken. */
  lemma TakenAt(orig: seq<int>, gr: seq<bool>, groups: seq<seq<int>>, rx: seq<int>, ex: seq<int>, more: seq<int>,
      rest: seq<int>, x: int)
    requires |gr| < |groups| && GoodGroups(groups) && Means(orig, gr, groups, rx, ex)
    requires forall x {:trigger x in more} :: x in more <==> x in groups[|gr|] && x !in ex
    requires forall x {:trigger x in rest} :: x in rest <==> x in ex && x !in groups[|gr|]
    ensures x in orig <==> Asked(x, gr + [true], groups, more + rx, rest)
    ensures x in more + rx ==> InChosen(x, gr + [true], groups)
    ensures x in rest ==> !InChosen(x, gr + [true], groups)
  {
    ChosenMore(gr, groups, true, x);
    if InChosen(x, gr, groups) {
      var g :| 0 <= g < |gr| && gr[g] && x in groups[g];
      assert x !in groups[|gr|];
    }
  }

  /** Taking a group: what it lacks stays to be sent, what it has too much is taken out. */
  lemma Taken(orig: seq<int>, gr: seq<bool>, groups: seq<seq<int>>, rx: seq<int>, ex: seq<int>, more: seq<int>,
      rest: seq<int>)
    requires |gr| < |groups| && GoodGroups(groups) && Means(orig, gr, groups, rx, ex)
    requires forall x {:trigger x in more} :: x in more <==> x in groups[|gr|] && x !in ex
    requires forall x {:trigger x in rest} :: x in rest <==> x in ex && x !in groups[|gr|]
    ensures Means(orig, gr + [true], groups, more + rx, rest)
  {
    forall x {:trigger x in orig}
      ensures x in orig <==> Asked(x, gr + [true], groups, more + rx, rest)
    {
      TakenAt(orig, gr, groups, rx, ex, more, rest, x);
    }
    forall x {:trigger x in more + rx} | x in more + rx
      ensures InChosen(x, gr + [true], groups)
    {
      TakenAt(orig, gr, groups, rx, ex, more, rest, x);
    }
    forall x {:trigger x in rest} | x in rest
      ensures !InChosen(x, gr + [true], groups)
    {
      TakenAt(orig, gr, groups, rx, ex, more, rest, x);
    }
  }

  // ---- which groups are chosen ----

  /** What a group has too much. */
  ghost function Extra(def: seq<int>, orig: seq<int>): set<int> { set x | x in def && x !in orig }

  lemma FewExtra(def: seq<int>, orig: seq<int>, rx: seq<int>)
    requires |rx| <= 2 && forall x {:trigger x in rx} :: x in rx <==> x in def && x !in orig
    ensures |Extra(def, orig)| <= 2
  {
    var few := set i | 0 <= i < |rx| :: rx[i];
    forall x | x in Extra(def, orig) ensures x in few { assert x in rx; }
    Permutations.SubsetCardinality(Extra(def, orig), few);
    if |rx| == 0 {
      assert few == {};
    } else if |rx| == 1 {
      assert few == {rx[0]};
    } else {
      assert few == {rx[0], rx[1]};
    }
  }

  lemma ManyExtra(def: seq<int>, orig: seq<int>, rx: seq<int>, x: int)
    requires |rx| == 2 && Sorted(rx) && (forall x {:trigger x in rx} :: x in rx ==> x in def && x !in orig) && x in def
      && x !in orig && x !in rx
    ensures |Extra(def, orig)| > 2
  {
    var many := {rx[0], rx[1], x};
    assert rx[0] in rx && rx[1] in rx && many <= Extra(def, orig);
    Permutations.SubsetCardinality(many, Extra(def, orig));
  }

  /** A group not looked at yet has lost nothing to those before it. */
  ghost predicate Untouched(orig: seq<int>, gr: seq<bool>, groups: seq<seq<int>>, ex: seq<int>) {
    forall g, x {:trigger x in groups[g], x in ex} ::
      |gr| <= g < |groups| && x in groups[g] ==> (x in ex <==> x in orig)
  }

  /** A group is chosen exactly when at most two of its extensions are not asked for. */
  ghost predicate RightlyChosen(orig: seq<int>, gr: seq<bool>, groups: seq<seq<int>>)
    requires |gr| <= |groups|
  {
    forall g {:trigger gr[g]} :: 0 <= g < |gr| ==> (gr[g] <==> |Extra(groups[g], orig)| <= 2)
  }

  lemma UntouchedNext(orig: seq<int>, gr: seq<bool>, groups: seq<seq<int>>, ex: seq<int>, b: bool, rest: seq<int>)
    requires |gr| < |groups| && GoodGroups(groups) && Untouched(orig, gr, groups, ex)
    requires rest == ex || forall x {:trigger x in rest} :: x in rest <==> x in ex && x !in groups[|gr|]
    ensures Untouched(orig, gr + [b], groups, rest)
  {
  }

  function Count(gr: seq<bool>): nat {
    if gr == [] then 0 else Count(gr[..|gr| - 1]) + if gr[|gr| - 1] then 1 else 0
  }

  lemma ChosenOr(orig: seq<int>, gr: seq<bool>, groups: seq<seq<int>>, ex: seq<int>, temp: seq<int>, ok: bool,
      more: seq<int>)
    requires |gr| < |groups| && Untouched(orig, gr, groups, ex) && RightlyChosen(orig, gr, groups)
    requires forall x {:trigger x in temp} :: x in temp <==> OneOf(x, groups[|gr|], ex)
    requires |more| <= 2 && Sorted(more) && forall x {:trigger x in more} :: x in more ==>
      x in temp && x in groups[|gr|]
    requires ok ==> forall x {:trigger x in more} :: x in more <==> x in temp && x in groups[|gr|]
    requires !ok ==> |more| == 2 && exists x :: x in temp && x in groups[|gr|] && x !in more
    ensures RightlyChosen(orig, gr + [ok], groups)
  {
    var def := groups[|gr|];
    if ok {
      FewExtra(def, orig, more);
    } else {
      var x :| x in temp && x in def && x !in more;
      ManyExtra(def, orig, more, x);
    }
  }

  // ---- in which order they are sent ----

  /** What is in def and not in orig. */
  function Minus(def: seq<int>, orig: seq<int>): seq<int> {
    if def == [] then [] else Minus(def[..|def| - 1], orig) + if def[|def| - 1] in orig then [] else [def[|def| - 1]]
  }

  lemma {:induction false} MinusHas(def: seq<int>, orig: seq<int>)
    requires Sorted(def)
    ensures Sorted(Minus(def, orig)) && forall x {:trigger x in Minus(def, orig)} :: x in Minus(def, orig) <==>
      x in def && x !in orig
    decreases |def|
  {
    if def != [] {
      var front, last := def[..|def| - 1], def[|def| - 1];
      MinusHas(front, orig);
      assert def == front + [last];
      SortedMore(Minus(front, orig), last);
    }
  }

  /** A sorted list is given by what is in it. */
  lemma {:induction false} SortedUnique(s: seq<int>, t: seq<int>)
    requires Sorted(s) && Sorted(t) && forall x {:trigger x in s} {:trigger x in t} :: x in s <==> x in t
    ensures s == t
    decreases |s|
  {
    SameEmpty(s, t);
    if s != [] {
      var m, n := |s| - 1, |t| - 1;
      Passes(s, t, s[m]);
      Passes(t, s, t[n]);
      LastOf(s, t[n]);
      LastOf(t, s[m]);
      SortedFront(s);
      SortedFront(t);
      SortedUnique(s[..m], t[..n]);
      assert s == s[..m] + [s[m]] && t == t[..n] + [t[n]];
    }
  }

  lemma Passes(s: seq<int>, t: seq<int>, x: int)
    requires x in s && forall x {:trigger x in s} :: x in s ==> x in t
    ensures x in t
  {
  }

  lemma SameEmpty(s: seq<int>, t: seq<int>)
    requires forall x {:trigger x in s} {:trigger x in t} :: x in s <==> x in t
    ensures s == [] <==> t == []
  {
    if s != [] { Passes(s, t, s[0]); }
    if t != [] { Passes(t, s, t[0]); }
  }

  lemma LastOf(s: seq<int>, x: int)
    requires Sorted(s) && x in s
    ensures x <= s[|s| - 1]
  {
  }

  lemma SortedFront(s: seq<int>)
    requires Sorted(s) && s != []
    ensures Sorted(s[..|s| - 1]) && forall x {:trigger x in s[..|s| - 1]} :: x in s[..|s| - 1] <==>
      x in s && x != s[|s| - 1]
  {
    var front, last := s[..|s| - 1], s[|s| - 1];
    assert s == front + [last];
  }

  /** RX in the order in which it is sent: what is too much in the later groups first. */
  function RxOf(gr: seq<bool>, groups: seq<seq<int>>, orig: seq<int>): seq<int>
    requires |gr| <= |groups|
  {
    if gr == [] then []
    else (if gr[|gr| - 1] then Minus(groups[|gr| - 1], orig) else []) + RxOf(gr[..|gr| - 1], groups, orig)
  }

  lemma RxMore(gr: seq<bool>, b: bool, groups: seq<seq<int>>, orig: seq<int>)
    requires |gr| < |groups|
    ensures RxOf(gr + [b], groups, orig) == (if b then Minus(groups[|gr|], orig) else []) + RxOf(gr, groups, orig)
  {
    assert (gr + [b])[..|gr|] == gr;
  }

  lemma MoreIsMinus(orig: seq<int>, gr: seq<bool>, groups: seq<seq<int>>, ex: seq<int>, temp: seq<int>, more: seq<int>)
    requires |gr| < |groups| && Untouched(orig, gr, groups, ex) && GoodGroups(groups) && Sorted(more)
    requires forall x {:trigger x in temp} :: x in temp <==> OneOf(x, groups[|gr|], ex)
    requires forall x {:trigger x in more} :: x in more <==> x in temp && x in groups[|gr|]
    ensures more == Minus(groups[|gr|], orig)
  {
    MinusHas(groups[|gr|], orig);
    SortedUnique(more, Minus(groups[|gr|], orig));
  }

  /** The loop of searchToken over the group tables. What is sent means exactly the extensions asked for, with at
      most two taken out for each group; the groups are those of which at most two extensions are not asked for. */
  method Group(orig: seq<int>, groups: seq<seq<int>>) returns (gr: seq<bool>, rx: seq<int>, ex: seq<int>)
    requires Sorted(orig) && GoodGroups(groups)
    ensures |gr| <= |groups| && Means(orig, gr, groups, rx, ex) && |rx| <= 2 * Count(gr)
    ensures RightlyChosen(orig, gr, groups) && (|gr| == |groups| || |ex| <= 2)
    ensures rx == RxOf(gr, groups, orig) && Sorted(ex)
  {
    gr, rx, ex := [], [], orig;
    while |gr| < |groups|
      invariant |gr| <= |groups| && Means(orig, gr, groups, rx, ex) && Sorted(ex) && |rx| <= 2 * Count(gr)
      invariant Untouched(orig, gr, groups, ex) && RightlyChosen(orig, gr, groups) && rx == RxOf(gr, groups, orig)
      decreases |groups| - |gr|
    {
      var def := groups[|gr|];
      var temp := SymmetricDifference(def, ex);
      var ok, more, rest := SplitDifference(temp, def);
      ChosenOr(orig, gr, groups, ex, temp, ok, more);
      UntouchedNext(orig, gr, groups, ex, ok, if ok then rest else ex);
      RxMore(gr, ok, groups, orig);
      if !ok {
        Passed(orig, gr, groups, rx, ex);
        assert (gr + [false])[..|gr|] == gr;
        gr := gr + [false];
      } else {
        MoreIsMinus(orig, gr, groups, ex, temp, more);
        Taken(orig, gr, groups, rx, ex, more, rest);
        assert (gr + [true])[..|gr|] == gr;
        gr, rx, ex := gr + [true], more + rx, rest;
        if |ex| <= 2 { break; }
      }
    }
  }
}
