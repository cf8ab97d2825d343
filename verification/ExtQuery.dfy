/** The receiving side of grouped extensions, AdcSearchParam: the group tables are listed again, EX behind them, and RX
    is taken out by set_difference, which reads both lists as if they were sorted. */
module ExtQuery {
  import opened ExtGroups

  // ---- set_difference ----

  /** What std::set_difference leaves of a, sorted or not. */
  function Difference(a: seq<int>, b: seq<int>): seq<int>
    decreases |a| + |b|
  {
    if a == [] || b == [] then a
    else if a[0] < b[0] then [a[0]] + Difference(a[1..], b)
    else if b[0] < a[0] then Difference(a, b[1..])
    else Difference(a[1..], b[1..])
  }

  lemma DifferenceStep(a: seq<int>, b: seq<int>, out: seq<int>, i: nat, j: nat)
    requires i < |a| && j < |b|
    ensures out + Difference(a[i..], b[j..]) ==
      if a[i] < b[j] then out + [a[i]] + Difference(a[i + 1..], b[j..])
      else if b[j] < a[i] then out + Difference(a[i..], b[j + 1..])
      else out + Difference(a[i + 1..], b[j + 1..])
  {
    assert a[i..][1..] == a[i + 1..] && b[j..][1..] == b[j + 1..];
  }

  /** std::set_difference with its output over its first input. */
  method SetDifference(a: array<int>, b: seq<int>) returns (len: nat)
    modifies a
    ensures len <= a.Length && a[..len] == Difference(old(a[..]), b)
  {
    ghost var was := a[..];
    var i, j: nat := 0, 0;
    len := 0;
    assert was[0..] == was && b[0..] == b && a[..0] == [];
    while i < a.Length && j < |b|
      invariant len <= i <= a.Length && j <= |b| && a[i..] == was[i..]
      invariant a[..len] + Difference(was[i..], b[j..]) == Difference(was, b)
      decreases a.Length - i + |b| - j
    {
      ghost var out := a[..len];
      DifferenceStep(was, b, out, i, j);
      assert a[i] == was[i..][0];
      if a[i] < b[j] {
        a[len] := a[i];
        assert a[..len + 1] == out + [was[i]];
        i, len := i + 1, len + 1;
      } else if b[j] < a[i] {
        j := j + 1;
      } else {
        i, j := i + 1, j + 1;
      }
    }
    assert Difference(was[i..], b[j..]) == was[i..];
    len := CopyDown(a, len, i);
  }

  /** std::copy of the rest. */
  method CopyDown(a: array<int>, to: nat, from: nat) returns (len: nat)
    requires to <= from <= a.Length
    modifies a
    ensures len == to + a.Length - from && a[..len] == old(a[..to] + a[from..])
  {
    ghost var was := a[..];
    len := to;
    for i := from to a.Length
      invariant len == to + i - from && a[..len] == was[..to] + was[from..i] && a[i..] == was[i..]
    {
      assert a[i] == was[i..][0];
      a[len] := a[i];
      assert a[..len + 1] == was[..to] + (was[from..i] + [was[i]]);
      len := len + 1;
    }
    assert was[from..a.Length] == was[from..];
  }

  // ---- when the difference is right ----

  ghost predicate Distinct(a: seq<int>) { forall i, j {:trigger a[i], a[j]} :: 0 <= i < j < |a| ==> a[i] != a[j] }

  /** b is what is left of a when some members are left out. */
  ghost predicate Within(b: seq<int>, a: seq<int>) {
    b == [] || (a != [] && if a[0] == b[0] then Within(b[1..], a[1..]) else Within(b, a[1..]))
  }

  /** Where x is first in a. */
  function Place(a: seq<int>, x: int): nat { if a == [] || a[0] == x then 0 else 1 + Place(a[1..], x) }

  /** Every member of b is greater than all that a lists between the member of b before it and itself. */
  ghost predicate InTurn(a: seq<int>, b: seq<int>) {
    forall i, j {:trigger a[i], b[j]} ::
      0 <= j < |b| && 0 <= i < |a| && Start(a, b, j) <= i < Place(a, b[j]) ==> a[i] < b[j]
  }

  function Start(a: seq<int>, b: seq<int>, j: int): int
    requires 0 <= j < |b|
  {
    if j == 0 then 0 else Place(a, b[j - 1]) + 1
  }

  /** b has been taken out of a. */
  ghost predicate TakenOut(a: seq<int>, b: seq<int>) {
    forall x {:trigger x in Difference(a, b)} :: x in Difference(a, b) <==> x in a && x !in b
  }

  /** Nothing is ever lost or made up. */
  lemma {:induction false} DifferenceBounds(a: seq<int>, b: seq<int>, x: int)
    ensures x in Difference(a, b) ==> x in a
    ensures x in a && x !in b ==> x in Difference(a, b)
    decreases |a| + |b|
  {
    if a != [] && b != [] {
      if a[0] < b[0] {
        DifferenceBounds(a[1..], b, x);
      } else if b[0] < a[0] {
        DifferenceBounds(a, b[1..], x);
      } else {
        DifferenceBounds(a[1..], b[1..], x);
      }
    }
  }

  lemma {:induction false} WithinHas(b: seq<int>, a: seq<int>)
    requires Within(b, a)
    ensures forall x {:trigger x in b} :: x in b ==> x in a
    decreases |a|
  {
    if b != [] {
      WithinHas(if a[0] == b[0] then b[1..] else b, a[1..]);
      forall x {:trigger x in b} | x in b
        ensures x in a
      {
        if a[0] == b[0] && x != b[0] {
          assert x in b[1..];
        } else if a[0] != b[0] {
          assert x in a[1..];
        }
      }
    }
  }

  lemma {:induction false} WithinOnce(b: seq<int>, a: seq<int>)
    requires Within(b, a) && Distinct(a) && b != []
    ensures b[0] !in b[1..]
    decreases |a|
  {
    TailDistinct(a);
    if a[0] == b[0] { WithinHas(b[1..], a[1..]); } else { WithinOnce(b, a[1..]); }
  }

  lemma {:induction false} PlaceIs(a: seq<int>, x: int)
    ensures if x in a then Place(a, x) < |a| && a[Place(a, x)] == x else Place(a, x) == |a|
    ensures forall i {:trigger a[i]} :: 0 <= i < Place(a, x) ==> a[i] != x
    decreases |a|
  {
    if a != [] { PlaceIs(a[1..], x); }
  }

  lemma TailDistinct(a: seq<int>)
    requires Distinct(a) && a != []
    ensures Distinct(a[1..]) && a[0] !in a[1..]
  {
  }

  /** The head of a, which is not the next of b. */
  lemma TurnSkips(a: seq<int>, b: seq<int>)
    requires Distinct(a) && a != [] && b != [] && Within(b, a[1..]) && a[0] != b[0]
    ensures InTurn(a, b) <==> a[0] < b[0] && InTurn(a[1..], b)
  {
    TailDistinct(a);
    WithinHas(b, a[1..]);
    forall j {:trigger b[j]} | 0 <= j < |b| ensures Place(a, b[j]) == 1 + Place(a[1..], b[j]) { assert b[j] in b; }
    assert Start(a, b, 0) == 0 && Start(a[1..], b, 0) == 0;
    if InTurn(a, b) {
      assert a[0] < b[0];
      forall i, j {:trigger a[1..][i], b[j]} | 0 <= j < |b| && 0 <= i < |a[1..]|
        && Start(a[1..], b, j) <= i < Place(a[1..], b[j])
        ensures a[1..][i] < b[j] {
        assert a[i + 1] < b[j];
      }
    }
    if a[0] < b[0] && InTurn(a[1..], b) {
      forall i, j {:trigger a[i], b[j]} | 0 <= j < |b| && 0 <= i < |a| && Start(a, b, j) <= i < Place(a, b[j])
        ensures a[i] < b[j]
      {
        if i > 0 { assert a[1..][i - 1] < b[j]; }
      }
    }
  }

  /** The head of a, which is the next of b. */
  lemma TurnMeets(a: seq<int>, b: seq<int>)
    requires Distinct(a) && a != [] && b != [] && Within(b[1..], a[1..]) && a[0] == b[0]
    ensures InTurn(a, b) <==> InTurn(a[1..], b[1..])
  {
    TailDistinct(a);
    WithinHas(b[1..], a[1..]);
    forall j {:trigger b[j]} | 1 <= j < |b|
      ensures Place(a, b[j]) == 1 + Place(a[1..], b[1..][j - 1])
    {
      assert b[j] == b[1..][j - 1];
      assert b[j] in b[1..];
    }
    if InTurn(a, b) {
      forall i, j {:trigger a[1..][i], b[1..][j]} | 0 <= j < |b[1..]| && 0 <= i < |a[1..]|
        && Start(a[1..], b[1..], j) <= i < Place(a[1..], b[1..][j])
        ensures a[1..][i] < b[1..][j]
      {
        assert b[1..][j] == b[j + 1] && a[1..][i] == a[i + 1];
        assert a[i + 1] < b[j + 1];
      }
    }
    if InTurn(a[1..], b[1..]) {
      forall i, j {:trigger a[i], b[j]} | 0 <= j < |b| && 0 <= i < |a| && Start(a, b, j) <= i < Place(a, b[j])
        ensures a[i] < b[j]
      {
        assert j > 0 && i > 0;
        assert a[1..][i - 1] < b[1..][j - 1];
      }
    }
  }

  /** set_difference takes out what it should exactly when every member of the second list comes in turn. */
  lemma {:induction false} RightInTurn(a: seq<int>, b: seq<int>)
    requires Distinct(a) && Within(b, a)
    ensures TakenOut(a, b) <==> InTurn(a, b)
    decreases |a|
  {
    if b != [] {
      TailDistinct(a);
      if a[0] == b[0] {
        TurnMeets(a, b);
        RightInTurn(a[1..], b[1..]);
        MetTaken(a, b);
      } else {
        TurnSkips(a, b);
        if a[0] < b[0] {
          RightInTurn(a[1..], b);
          SkippedTaken(a, b);
        } else {
          WithinHas(b, a);
          WithinOnce(b, a);
          Passes(b, a, b[0]);
          Missed(a, b, b[0]);
        }
      }
    }
  }

  lemma MetTaken(a: seq<int>, b: seq<int>)
    requires Distinct(a) && a != [] && b != [] && Within(b[1..], a[1..]) && a[0] == b[0]
    ensures TakenOut(a, b) <==> TakenOut(a[1..], b[1..])
  {
    TailDistinct(a);
    WithinHas(b[1..], a[1..]);
    var d := Difference(a, b);
    assert d == Difference(a[1..], b[1..]);
    forall x ensures (x in a <==> x == a[0] || x in a[1..]) && (x in b <==> x == b[0] || x in b[1..]) {
      assert a == [a[0]] + a[1..] && b == [b[0]] + b[1..];
    }
    DifferenceBounds(a[1..], b[1..], a[0]);
  }

  lemma SkippedTaken(a: seq<int>, b: seq<int>)
    requires Distinct(a) && a != [] && b != [] && Within(b, a[1..]) && a[0] < b[0]
    ensures TakenOut(a, b) <==> TakenOut(a[1..], b)
  {
    TailDistinct(a);
    WithinHas(b, a[1..]);
    var d, e := Difference(a, b), Difference(a[1..], b);
    assert d == [a[0]] + e;
    forall x ensures (x in a <==> x == a[0] || x in a[1..]) && (x in d <==> x == a[0] || x in e) {
      assert a == [a[0]] + a[1..];
    }
    DifferenceBounds(a[1..], b, a[0]);
  }

  /** A member of b that is passed over is never taken out. */
  lemma Missed(a: seq<int>, b: seq<int>, x: int)
    requires Distinct(a) && a != [] && b != [] && x == b[0] < a[0] && x in a && x !in b[1..]
    ensures x in Difference(a, b) && !TakenOut(a, b)
  {
    DifferenceBounds(a, b[1..], x);
    assert x in b;
  }

  // ---- what is sent and what is made of it ----

  /** The parameters EX, GR and RX of a search. */
  datatype Param = Ext(x: int) | Groups(gr: seq<bool>) | NoExt(x: int)

  /** parseSearchExts: the tables of the groups, the last one first. */
  function Listed(gr: seq<bool>, groups: seq<seq<int>>): seq<int> {
    if gr == [] then []
    else (if gr[|gr| - 1] && |gr| <= |groups| then groups[|gr| - 1] else []) + Listed(gr[..|gr| - 1], groups)
  }

  method ParseSearchExts(gr: seq<bool>, groups: seq<seq<int>>) returns (ret: seq<int>)
    ensures ret == Listed(gr, groups)
  {
    ret := [];
    for i := 0 to |gr|
      invariant ret == Listed(gr[..i], groups)
    {
      assert gr[..i + 1][..i] == gr[..i];
      if gr[i] && i < |groups| { ret := groups[i] + ret; } else { assert [] + ret == ret; }
    }
    assert gr[..|gr|] == gr;
  }

  function ExtsOf(params: seq<Param>, groups: seq<seq<int>>): seq<int> {
    if params == [] then []
    else
      var exts := ExtsOf(params[..|params| - 1], groups);
      match params[|params| - 1]
      case Ext(x) => exts + [x]
      case Groups(gr) => Listed(gr, groups) + exts
      case NoExt(_) => exts
  }

  function NoExtsOf(params: seq<Param>): seq<int> {
    if params == [] then []
    else NoExtsOf(params[..|params| - 1]) + match params[|params| - 1] case NoExt(x) => [x] case _ => []
  }

  /** The name ends with one of the extensions. */
  ghost predicate Meets(name: set<int>, exts: seq<int>) { exists x {:trigger x in exts} :: x in exts && x in name }

  class AdcSearchParam {
    var exts: seq<int>
    var noExts: seq<int>

    constructor (params: seq<Param>, groups: seq<seq<int>>)
      ensures exts == ExtsOf(params, groups) && noExts == NoExtsOf(params)
    {
      exts, noExts := [], [];
      new;
      for i := 0 to |params|
        invariant exts == ExtsOf(params[..i], groups) && noExts == NoExtsOf(params[..i])
      {
        assert params[..i + 1][..i] == params[..i];
        match params[i]
        case Ext(x) => exts := exts + [x];
        case Groups(gr) =>
          var group := ParseSearchExts(gr, groups);
          exts := group + exts;
        case NoExt(x) => noExts := noExts + [x];
      }
      assert params[..|params|] == params;
    }

    /** hasExt, for a name given by the extensions it ends with. RX is taken out by the first call. */
    method HasExt(name: set<int>) returns (ok: bool)
      modifies this
      ensures exts == Difference(old(exts), old(noExts)) && (exts != [] ==> noExts == [])
      ensures ok <==> old(exts) == [] || Meets(name, exts)
    {
      if exts == [] { return true; }
      if noExts != [] {
        var a := new int[|exts|](i requires 0 <= i < |exts| reads this => exts[i]);
        assert a[..] == exts;
        var len := SetDifference(a, noExts);
        exts := a[..len];
        noExts := [];
      }
      for i := 0 to |exts|
        invariant forall x {:trigger x in exts[..i]} :: x in exts[..i] ==> x !in name
      {
        var x := exts[i];
        if x in name { assert x in exts; return true; }
        assert exts[..i + 1] == exts[..i] + [exts[i]];
      }
      assert exts[..|exts|] == exts;
      ok := false;
    }
  }

  // ---- sent and received ----

  function Singles(exts: seq<int>): (r: seq<Param>)
    ensures |r| == |exts|
  {
    seq(|exts|, i requires 0 <= i < |exts| => Ext(exts[i]))
  }

  function Exclusions(rx: seq<int>): (r: seq<Param>)
    ensures |r| == |rx|
  {
    seq(|rx|, i requires 0 <= i < |rx| => NoExt(rx[i]))
  }

  lemma {:induction false} SinglesRead(exts: seq<int>, groups: seq<seq<int>>)
    ensures ExtsOf(Singles(exts), groups) == exts && NoExtsOf(Singles(exts)) == []
    decreases |exts|
  {
    if exts != [] {
      var m := |exts| - 1;
      SinglesRead(exts[..m], groups);
      assert Singles(exts)[..m] == Singles(exts[..m]);
      assert exts == exts[..m] + [exts[m]];
    }
  }

  lemma {:induction false} ExclusionsRead(params: seq<Param>, rx: seq<int>, groups: seq<seq<int>>)
    ensures ExtsOf(params + Exclusions(rx), groups) == ExtsOf(params, groups)
    ensures NoExtsOf(params + Exclusions(rx)) == NoExtsOf(params) + rx
    decreases |rx|
  {
    if rx != [] {
      var m, all := |rx| - 1, params + Exclusions(rx);
      ExclusionsRead(params, rx[..m], groups);
      assert all[..|all| - 1] == params + Exclusions(rx[..m]);
      assert NoExtsOf(params) + rx == NoExtsOf(params) + rx[..m] + [rx[m]];
    } else {
      assert params + Exclusions(rx) == params && NoExtsOf(params) + [] == NoExtsOf(params);
    }
  }

  /** The command for hubs that know groups. */
  function Sent(gr: seq<bool>, rx: seq<int>, ex: seq<int>): seq<Param> { Singles(ex) + [Groups(gr)] + Exclusions(rx) }

  lemma SentRead(gr: seq<bool>, rx: seq<int>, ex: seq<int>, groups: seq<seq<int>>)
    ensures ExtsOf(Sent(gr, rx, ex), groups) == Listed(gr, groups) + ex && NoExtsOf(Sent(gr, rx, ex)) == rx
  {
    var p := Singles(ex) + [Groups(gr)];
    SinglesRead(ex, groups);
    assert p[..|p| - 1] == Singles(ex);
    ExclusionsRead(p, rx, groups);
    assert NoExtsOf(p) + rx == rx;
  }

  /** The parameters that searchToken sends to those who know groups. */
  method Search(orig: seq<int>, groups: seq<seq<int>>)
      returns (params: seq<Param>, gr: seq<bool>, rx: seq<int>, ex: seq<int>)
    requires Sorted(orig) && GoodGroups(groups)
    ensures |gr| <= |groups| && Means(orig, gr, groups, rx, ex) && rx == RxOf(gr, groups, orig) && Sorted(ex)
    ensures params == if Count(gr) > 0 then Sent(gr, rx, ex) else Singles(orig)
    ensures Count(gr) > 0 ==> |orig| > 2
    ensures |orig| > 2 ==> RightlyChosen(orig, gr, groups) && (|gr| == |groups| || |ex| <= 2)
  {
    gr, rx, ex := [], [], orig;
    if |orig| > 2 { gr, rx, ex := Group(orig, groups); }
    var any := Chosen(gr);
    params := if any then Sent(gr, rx, ex) else Singles(orig);
  }

  method Chosen(gr: seq<bool>) returns (any: bool)
    ensures any <==> Count(gr) > 0
  {
    any := false;
    for i := 0 to |gr|
      invariant any <==> Count(gr[..i]) > 0
    {
      assert gr[..i + 1][..i] == gr[..i];
      any := any || gr[i];
    }
    assert gr[..|gr|] == gr;
  }

  lemma {:induction false} ListedHas(gr: seq<bool>, groups: seq<seq<int>>)
    requires |gr| <= |groups|
    ensures forall x {:trigger x in Listed(gr, groups)} :: x in Listed(gr, groups) <==> InChosen(x, gr, groups)
    decreases |gr|
  {
    if gr != [] {
      var front, b := gr[..|gr| - 1], gr[|gr| - 1];
      ListedHas(front, groups);
      assert gr == front + [b];
      forall x {:trigger x in Listed(gr, groups)}
        ensures x in Listed(gr, groups) <==> InChosen(x, gr, groups)
      {
        ChosenMore(front, groups, b, x);
      }
    }
  }

  lemma DistinctJoin(a: seq<int>, b: seq<int>)
    requires Distinct(a) && Distinct(b) && forall x {:trigger x in a} :: x in a ==> x !in b
    ensures Distinct(a + b)
  {
    forall i, j {:trigger (a + b)[i], (a + b)[j]} | 0 <= i < j < |a + b| ensures (a + b)[i] != (a + b)[j] {
      if i < |a| <= j { assert a[i] in a && b[j - |a|] in b; }
    }
  }

  lemma {:induction false} WithinJoin(b: seq<int>, a: seq<int>, d: seq<int>, c: seq<int>)
    requires Within(b, a) && Within(d, c) && Distinct(a + c)
    ensures Within(b + d, a + c)
    decreases |a|
  {
    if a == [] {
      assert b + d == d && a + c == c;
    } else {
      assert (a + c)[1..] == a[1..] + c;
      TailDistinct(a + c);
      if b == [] {
        WithinHas(d, c);
        WithinJoin([], a[1..], d, c);
        assert b + d == d && [] + d == d;
        if d != [] { Passes(d, c, d[0]); }
      } else if a[0] == b[0] {
        assert (b + d)[1..] == b[1..] + d;
        WithinJoin(b[1..], a[1..], d, c);
      } else {
        WithinJoin(b, a[1..], d, c);
      }
    }
  }

  lemma {:induction false} MinusWithin(def: seq<int>, orig: seq<int>)
    requires Sorted(def)
    ensures Within(Minus(def, orig), def)
    decreases |def|
  {
    if def != [] {
      var front, last := def[..|def| - 1], [def[|def| - 1]];
      MinusWithin(front, orig);
      assert def == front + last && last[1..] == [];
      if def[|def| - 1] in orig {
        WithinJoin(Minus(front, orig), front, [], last);
      } else {
        WithinJoin(Minus(front, orig), front, last, last);
      }
    }
  }

  /** The list that the receiver makes has no extension twice, and RX in its order. */
  lemma {:induction false} ListedOrder(gr: seq<bool>, groups: seq<seq<int>>, orig: seq<int>)
    requires |gr| <= |groups| && GoodGroups(groups)
    ensures Distinct(Listed(gr, groups)) && Within(RxOf(gr, groups, orig), Listed(gr, groups))
    decreases |gr|
  {
    if gr != [] {
      var m, front := |gr| - 1, gr[..|gr| - 1];
      ListedOrder(front, groups, orig);
      if gr[m] {
        var def := groups[m];
        assert Sorted(def);
        ListedHas(front, groups);
        forall x {:trigger x in def} | x in def ensures x !in Listed(front, groups) { Apart(front, groups, m, x); }
        DistinctJoin(def, Listed(front, groups));
        MinusWithin(def, orig);
        WithinJoin(Minus(def, orig), def, RxOf(front, groups, orig), Listed(front, groups));
      } else {
        assert [] + RxOf(front, groups, orig) == RxOf(front, groups, orig);
        assert [] + Listed(front, groups) == Listed(front, groups);
      }
    }
  }

  lemma Apart(gr: seq<bool>, groups: seq<seq<int>>, m: nat, x: int)
    requires |gr| <= m < |groups| && GoodGroups(groups) && x in groups[m]
    ensures !InChosen(x, gr, groups)
  {
  }

  /** A query sent in groups keeps every extension asked for, and no other exactly when RX comes in turn in the list of
      the receiver: in each place only after smaller ones. */
  lemma GroupedRight(orig: seq<int>, gr: seq<bool>, groups: seq<seq<int>>, rx: seq<int>, ex: seq<int>)
    requires |gr| <= |groups| && GoodGroups(groups) && Means(orig, gr, groups, rx, ex) && rx == RxOf(gr, groups, orig)
      && Sorted(ex)
    ensures var list := Listed(gr, groups) + ex; var kept := Difference(list, rx);
      && (forall x {:trigger x in orig} :: x in orig ==> x in kept) && (orig != [] ==> list != [])
      && ((forall x {:trigger x in kept} :: x in kept ==> x in orig) <==> InTurn(list, rx))
  {
    var list := Listed(gr, groups) + ex;
    ListOrder(orig, gr, groups, rx, ex);
    RightInTurn(list, rx);
    forall x {:trigger x in orig} {:trigger x in list}
      ensures x in orig <==> x in list && x !in rx
    {
      ListMeans(orig, gr, groups, rx, ex, x);
    }
    forall x {:trigger x in orig} | x in orig ensures x in Difference(list, rx) {
      ListMeans(orig, gr, groups, rx, ex, x);
      DifferenceBounds(list, rx, x);
    }
    if orig != [] { ListMeans(orig, gr, groups, rx, ex, orig[0]); }
    KeptRight(orig, list, rx);
  }

  lemma KeptRight(orig: seq<int>, list: seq<int>, rx: seq<int>)
    requires forall x {:trigger x in orig} {:trigger x in list} :: x in orig <==> x in list && x !in rx
    ensures (forall x {:trigger x in Difference(list, rx)} :: x in Difference(list, rx) ==> x in orig) <==>
      TakenOut(list, rx)
  {
    forall x {:trigger x in Difference(list, rx)}
      ensures (x in Difference(list, rx) ==> x in list) && (x in orig ==> x in Difference(list, rx))
    {
      DifferenceBounds(list, rx, x);
    }
  }

  lemma ListMeans(orig: seq<int>, gr: seq<bool>, groups: seq<seq<int>>, rx: seq<int>, ex: seq<int>, x: int)
    requires |gr| <= |groups| && Means(orig, gr, groups, rx, ex)
    ensures x in orig <==> x in Listed(gr, groups) + ex && x !in rx
  {
    ListedHas(gr, groups);
    assert x in orig <==> Asked(x, gr, groups, rx, ex);
  }

  lemma ListOrder(orig: seq<int>, gr: seq<bool>, groups: seq<seq<int>>, rx: seq<int>, ex: seq<int>)
    requires |gr| <= |groups| && GoodGroups(groups) && Means(orig, gr, groups, rx, ex) && rx == RxOf(gr, groups, orig)
      && Sorted(ex)
    ensures Distinct(Listed(gr, groups) + ex) && Within(rx, Listed(gr, groups) + ex)
  {
    var l := Listed(gr, groups);
    ListedHas(gr, groups);
    ListedOrder(gr, groups, orig);
    DistinctJoin(l, ex);
    WithinJoin(rx, l, [], ex);
    assert rx + [] == rx;
  }

  /** One group alone is always read right. */
  lemma OneGroupInTurn(gr: seq<bool>, groups: seq<seq<int>>, orig: seq<int>, ex: seq<int>, g: nat)
    requires |gr| <= |groups| && GoodGroups(groups) && g < |gr| && forall h {:trigger gr[h]} :: 0 <= h < |gr| ==>
      (gr[h] <==> h == g)
    ensures InTurn(Listed(gr, groups) + ex, RxOf(gr, groups, orig))
  {
    OnlyOne(gr, groups, orig, g);
    var def, rx := groups[g], Minus(groups[g], orig);
    var list := def + ex;
    MinusHas(def, orig);
    forall i, j {:trigger list[i], rx[j]} |
      0 <= j < |rx| && 0 <= i < |list| && Start(list, rx, j) <= i < Place(list, rx[j])
      ensures list[i] < rx[j]
    {
      assert rx[j] in rx;
      PlaceIs(def, rx[j]);
      PlaceIs(list, rx[j]);
      assert list[Place(def, rx[j])] == rx[j];
      assert Place(list, rx[j]) <= Place(def, rx[j]);
    }
  }

  lemma {:induction false} OnlyOne(gr: seq<bool>, groups: seq<seq<int>>, orig: seq<int>, g: nat)
    requires |gr| <= |groups| && forall h {:trigger gr[h]} :: 0 <= h < |gr| ==> (gr[h] <==> h == g)
    ensures Listed(gr, groups) == (if g < |gr| then groups[g] else [])
      && RxOf(gr, groups, orig) == (if g < |gr| then Minus(groups[g], orig) else [])
    decreases |gr|
  {
    if gr != [] {
      var front := gr[..|gr| - 1];
      assert forall h {:trigger front[h]} :: 0 <= h < |front| ==> front[h] == gr[h];
      OnlyOne(front, groups, orig, g);
    }
  }

  /** A search for some extensions, sent and read by one who knows groups. */
  method Query(orig: seq<int>, groups: seq<seq<int>>, name: set<int>)
      returns (wanted: bool, kept: seq<int>, gr: seq<bool>, rx: seq<int>, ex: seq<int>)
    requires Sorted(orig) && GoodGroups(groups)
    ensures |gr| <= |groups| && Means(orig, gr, groups, rx, ex) && rx == RxOf(gr, groups, orig)
    ensures |orig| > 2 ==> RightlyChosen(orig, gr, groups) && (|gr| == |groups| || |ex| <= 2)
    ensures kept == (if Count(gr) > 0 then Difference(Listed(gr, groups) + ex, rx) else orig)
    ensures wanted <==> orig == [] || Meets(name, kept)
    ensures forall x {:trigger x in orig} :: x in orig ==> x in kept
    ensures (forall x {:trigger x in kept} :: x in kept ==> x in orig) <==>
      Count(gr) == 0 || InTurn(Listed(gr, groups) + ex, rx)
  {
    var params;
    params, gr, rx, ex := Search(orig, groups);
    var sp := new AdcSearchParam(params, groups);
    SentRead(gr, rx, ex, groups);
    SinglesRead(orig, groups);
    wanted := sp.HasExt(name);
    kept := sp.exts;
    if Count(gr) > 0 { GroupedRight(orig, gr, groups, rx, ex); }
  }
}
