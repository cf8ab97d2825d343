/** The initial run-length coding of a block: up to four equal bytes, and after four a count of how
    many more there are. */
module Rle {

  /** n copies of v, none when n is negative. */
  function Repeat(v: int, n: int): (r: seq<int>)
    ensures |r| == (if n < 0 then 0 else n) && forall k {:trigger r[k]} :: 0 <= k < |r| ==> r[k] == v
  {
    seq(if n < 0 then 0 else n, _ => v)
  }

  // ---- encoding ----

  /** A run of the input: state_in_ch and state_in_len. */
  datatype Pair = Pair(ch: int, len: int)

  predicate IsRun(p: Pair) { 0 <= p.ch < 256 && 1 <= p.len <= 255 }

  /** What add_pair_to_block puts in the block. */
  function EncPair(p: Pair): (r: seq<int>)
    ensures |r| <= 5 && (IsRun(p) ==> |r| >= 1)
  {
    if p.len < 4 then Repeat(p.ch, p.len) else Repeat(p.ch, 4) + [p.len - 4]
  }

  /** Runs that may follow each other in one block: a run that carries no count must end before
      another byte. */
  ghost predicate Runs(ps: seq<Pair>) {
    && (forall i {:trigger ps[i]} :: 0 <= i < |ps| ==> IsRun(ps[i]))
    && forall i {:trigger Apart(ps, i)} :: 0 <= i < |ps| - 1 ==> Apart(ps, i)
  }

  ghost predicate Apart(ps: seq<Pair>, i: int)
    requires 0 <= i < |ps| - 1
  {
    ps[i].len >= 4 || ps[i].ch != ps[i + 1].ch
  }

  function Encoded(ps: seq<Pair>): seq<int> {
    if ps == [] then [] else EncPair(ps[0]) + Encoded(ps[1..])
  }

  function Expanded(ps: seq<Pair>): seq<int> {
    if ps == [] then [] else Repeat(ps[0].ch, ps[0].len) + Expanded(ps[1..])
  }

  lemma {:induction false} EncodedMore(ps: seq<Pair>, p: Pair)
    ensures Encoded(ps + [p]) == Encoded(ps) + EncPair(p)
    ensures Expanded(ps + [p]) == Expanded(ps) + Repeat(p.ch, p.len)
    decreases |ps|
  {
    if ps == [] {
      assert ps + [p] == [p] && [p][1..] == [];
    } else {
      assert (ps + [p])[1..] == ps[1..] + [p];
      EncodedMore(ps[1..], p);
    }
  }

  // ---- decoding ----

  /** The bytes of a block as the decoder fetches them: n of them, then two more it may look at. */
  ghost predicate Fetched(b: seq<int>, n: nat) {
    |b| == n + 2 && forall i {:trigger b[i]} :: 0 <= i < |b| ==> 0 <= b[i] < 256
  }

  /** The run that starts at byte u: its length and where the next one starts. */
  function NextRun(b: seq<int>, n: nat, u: nat): (r: (int, int))
    requires Fetched(b, n) && u < n
    ensures u < r.1 <= u + 5 && r.1 <= n + 1 && r.0 >= 1
  {
    if u + 1 == n || b[u + 1] != b[u] then (1, u + 1)
    else if u + 2 == n || b[u + 2] != b[u] then (2, u + 2)
    else if u + 3 == n || b[u + 3] != b[u] then (3, u + 3)
    else (b[u + 4] + 4, u + 5)
  }

  /** All that is output from byte u on. */
  function Rest(b: seq<int>, n: nat, u: nat): seq<int>
    requires Fetched(b, n)
    decreases n - u
  {
    if u >= n then [] else Repeat(b[u], NextRun(b, n, u).0) + Rest(b, n, NextRun(b, n, u).1)
  }

  /** Where the decoder ends: at n, or past it when the last run lacks its count, which it reports as
      corrupt. */
  function EndsAt(b: seq<int>, n: nat, u: nat): (r: nat)
    requires Fetched(b, n)
    ensures u <= n + 1 ==> n <= r <= n + 1
    decreases n - u
  {
    if u >= n then u else EndsAt(b, n, NextRun(b, n, u).1)
  }

  lemma FirstRun(b: seq<int>, n: nat, u: nat, p: Pair)
    requires Fetched(b, n) && IsRun(p) && u + |EncPair(p)| <= n && b[u..u + |EncPair(p)|] == EncPair(p)
    requires u + |EncPair(p)| < n && p.len < 4 ==> b[u + |EncPair(p)|] != p.ch
    ensures NextRun(b, n, u) == (p.len, u + |EncPair(p)|) && b[u] == p.ch
  {
    var e := EncPair(p);
    assert forall k {:trigger e[k]} :: 0 <= k < |e| ==> b[u + k] == b[u..u + |e|][k] == e[k];
    assert b[u] == e[0];
    assert |e| > 1 ==> b[u + 1] == e[1];
    assert |e| > 2 ==> b[u + 2] == e[2];
    assert |e| > 3 ==> b[u + 3] == e[3] && b[u + 4] == e[4];
  }

  lemma SplitAt(b: seq<int>, u: nat, n: nat, e: seq<int>, t: seq<int>)
    requires u <= n <= |b| && b[u..n] == e + t
    ensures u + |e| <= n && b[u..u + |e|] == e && b[u + |e|..n] == t
  {
    assert b[u..u + |e|] == b[u..n][..|e|] && b[u + |e|..n] == b[u..n][|e|..];
  }

  lemma RunsAfter(ps: seq<Pair>)
    requires Runs(ps) && ps != []
    ensures Runs(ps[1..]) && IsRun(ps[0]) && (|ps| > 1 && ps[0].len < 4 ==> ps[1].ch != ps[0].ch)
  {
    var t := ps[1..];
    forall i {:trigger Apart(t, i)} | 0 <= i < |t| - 1 ensures Apart(t, i) { assert Apart(ps, i + 1); }
    assert |ps| > 1 ==> Apart(ps, 0);
  }

  lemma FirstByte(ps: seq<Pair>)
    requires Runs(ps)
    ensures ps == [] <==> Encoded(ps) == []
    ensures ps != [] ==> Encoded(ps)[0] == ps[0].ch
  {
    if ps != [] { assert EncPair(ps[0])[0] == ps[0].ch; }
  }

  /** The first run of a coded stretch, and the stretch after it. */
  lemma Peel(b: seq<int>, n: nat, u: nat, ps: seq<Pair>)
    requires Fetched(b, n) && Runs(ps) && ps != [] && u <= n && b[u..n] == Encoded(ps)
    ensures var v := u + |EncPair(ps[0])|;
            v <= n && b[u..v] == EncPair(ps[0]) && b[v..n] == Encoded(ps[1..]) && Runs(ps[1..])
            && (v < n && ps[0].len < 4 ==> b[v] != ps[0].ch)
  {
    var v := u + |EncPair(ps[0])|;
    SplitAt(b, u, n, EncPair(ps[0]), Encoded(ps[1..]));
    RunsAfter(ps);
    FirstByte(ps[1..]);
    assert v < n ==> b[v..n][0] == b[v];
  }

  lemma RestStep(b: seq<int>, n: nat, u: nat, len: int, v: nat)
    requires Fetched(b, n) && u < n && NextRun(b, n, u) == (len, v)
    ensures Rest(b, n, u) == Repeat(b[u], len) + Rest(b, n, v) && EndsAt(b, n, u) == EndsAt(b, n, v)
  {
  }

  /** Undoing the coding gives the runs back, whatever the two bytes after the block are. */
  lemma {:induction false} RestInverts(b: seq<int>, n: nat, u: nat, ps: seq<Pair>)
    requires Fetched(b, n) && Runs(ps) && u <= n && b[u..n] == Encoded(ps)
    ensures Rest(b, n, u) == Expanded(ps) && EndsAt(b, n, u) == n
    decreases |ps|
  {
    FirstByte(ps);
    assert |b[u..n]| == n - u;
    if ps != [] {
      var v := u + |EncPair(ps[0])|;
      Peel(b, n, u, ps);
      FirstRun(b, n, u, ps[0]);
      RestStep(b, n, u, ps[0].len, v);
      RestInverts(b, n, v, ps[1..]);
    }
  }

  /** What a decoder makes of a block; g and g2 are the two bytes it may fetch behind it. */
  ghost function UnRle(data: seq<int>, g: int, g2: int): seq<int> {
    if Fetched(data + [g, g2], |data|) then Rest(data + [g, g2], |data|, 0) else []
  }

  /** For every sequence of runs: what a decoder makes of the block is what the encoder took in. */
  lemma UnRleInvertsRle(ps: seq<Pair>, g: int, h: int)
    requires Runs(ps) && 0 <= g < 256 && 0 <= h < 256
    ensures var b := Encoded(ps) + [g, h];
            Fetched(b, |Encoded(ps)|) && Rest(b, |Encoded(ps)|, 0) == Expanded(ps)
              && EndsAt(b, |Encoded(ps)|, 0) == |Encoded(ps)|
  {
    var b, n := Encoded(ps) + [g, h], |Encoded(ps)|;
    EncodedBytes(ps);
    assert b[0..n] == Encoded(ps);
    RestInverts(b, n, 0, ps);
  }

  lemma {:induction false} EncodedBytes(ps: seq<Pair>)
    requires forall i {:trigger ps[i]} :: 0 <= i < |ps| ==> IsRun(ps[i])
    ensures forall i {:trigger Encoded(ps)[i]} :: 0 <= i < |Encoded(ps)| ==> 0 <= Encoded(ps)[i] < 256
    decreases |ps|
  {
    if ps != [] { EncodedBytes(ps[1..]); }
  }
}
