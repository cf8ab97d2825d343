/** Index permutations: sequences that list 0..n-1 once each, and the counting facts used about them. */
module Permutations {

  ghost predicate Distinct<T(!new)>(s: seq<T>) {
    forall i, j :: 0 <= i < j < |s| ==> s[i] != s[j]
  }

  ghost predicate IsPerm(s: seq<int>) {
    && (forall i :: 0 <= i < |s| ==> 0 <= s[i] < |s|)
    && Distinct(s)
  }

  ghost function Elems<T(!new)>(s: seq<T>): set<T> {
    set x | x in s
  }

  ghost function Below(n: nat): (r: set<int>)
    ensures |r| == n
    ensures forall x :: x in r <==> 0 <= x < n
  {
    if n == 0 then {} else Below(n - 1) + {n - 1}
  }

  lemma {:induction false} DistinctCardinality<T(!new)>(s: seq<T>)
    requires Distinct(s)
    ensures |Elems(s)| == |s|
  {
    if s != [] {
      var m := |s| - 1;
      DistinctCardinality(s[..m]);
      assert Elems(s) == Elems(s[..m]) + {s[m]};
    }
  }

  lemma SubsetCardinality<T>(a: set<T>, b: set<T>)
    requires a <= b
    ensures |a| <= |b|
    ensures |a| == |b| ==> a == b
  {
    assert b == a + (b - a);
  }

  /** Pigeonhole: an index permutation hits every index. */
  lemma PermElems(s: seq<int>)
    requires IsPerm(s)
    ensures Elems(s) == Below(|s|)
  {
    DistinctCardinality(s);
    SubsetCardinality(Elems(s), Below(|s|));
  }

  lemma PermHits(s: seq<int>, v: int) returns (i: nat)
    requires IsPerm(s) && 0 <= v < |s|
    ensures i < |s| && s[i] == v
  {
    PermElems(s);
    assert v in Elems(s);
    i :| 0 <= i < |s| && s[i] == v;
  }

  /** Rearranging a sequence keeps it free of duplicates. */
  lemma DistinctMultiset<T(!new)>(s: seq<T>, t: seq<T>)
    requires multiset(s) == multiset(t) && Distinct(s)
    ensures Distinct(t) && |s| == |t|
  {
    assert |multiset(s)| == |s| && |multiset(t)| == |t|;
    forall i, j | 0 <= i < j < |t| ensures t[i] != t[j] {
      if t[i] == t[j] {
        assert t == t[..j] + [t[j]] + t[j + 1..];
        assert multiset(t) == multiset(t[..j]) + multiset{t[j]} + multiset(t[j + 1..]);
        assert t[..j][i] == t[i];
        assert t[i] in multiset(t[..j]);
        assert multiset(t)[t[i]] >= 2;
        MultiplicityOne(s, t[i]);
        assert false;
      }
    }
  }

  lemma {:induction false} MultiplicityOne<T(!new)>(s: seq<T>, x: T)
    requires Distinct(s)
    ensures multiset(s)[x] <= 1
  {
    if s != [] {
      var m := |s| - 1;
      assert s == s[..m] + [s[m]];
      MultiplicityOne(s[..m], x);
      if s[m] == x {
        assert x !in s[..m];
      }
    }
  }

  lemma PermMultiset(s: seq<int>, t: seq<int>)
    requires multiset(s) == multiset(t) && IsPerm(s)
    ensures IsPerm(t) && |s| == |t|
  {
    DistinctMultiset(s, t);
    forall i | 0 <= i < |t| ensures 0 <= t[i] < |t| {
      assert t[i] in multiset(t);
      assert t[i] in s;
    }
  }

  /** A map that keeps indices apart cannot go into a smaller set. */
  lemma {:induction false} Injection(a: set<int>, b: set<int>, f: seq<int>, n: nat)
    requires n <= |f| && Distinct(f) && forall x :: x in a ==> 0 <= x < n && f[x] in b
    ensures |a| <= |b|
    decreases n
  {
    if n > 0 {
      var x := n - 1;
      Injection(a - {x}, if x in a then b - {f[x]} else b, f, n - 1);
      if x !in a { assert a - {x} == a; }
    } else {
      SubsetCardinality(a, Below(0));
    }
  }

  /** The inverse of an index permutation. */
  lemma InversePerm(f: seq<int>) returns (g: seq<int>)
    requires IsPerm(f)
    ensures |g| == |f| && IsPerm(g) && forall i {:trigger f[i]} :: 0 <= i < |f| ==> g[f[i]] == i
    ensures forall p {:trigger g[p]} :: 0 <= p < |f| ==> f[g[p]] == p
  {
    forall p | 0 <= p < |f| ensures p in f { var i := PermHits(f, p); }
    g := seq(|f|, p requires 0 <= p < |f| => IndexOf(f, p));
    forall i | 0 <= i < |f| ensures g[f[i]] == i {
      assert f[g[f[i]]] == f[i];
    }
    forall p, q | 0 <= p < q < |f| ensures g[p] != g[q] {
      assert f[g[p]] == p && f[g[q]] == q;
    }
  }

  ghost function IndexOf(f: seq<int>, v: int): (i: int)
    requires v in f
    ensures 0 <= i < |f| && f[i] == v
  {
    var i :| 0 <= i < |f| && f[i] == v;
    i
  }
}
