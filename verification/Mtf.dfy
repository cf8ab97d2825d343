/** Move-to-front coding with RUNA/RUNB runs: what the symbols mean and the round trip. */
module Mtf {
  import opened MtfTable
  import Rle

  const RUNA := 0
  const RUNB := 1
  /** The decoder refuses run digits of this weight. */
  const RUN_LIMIT := 2097152

  // ---- encoding ----

  /** A run of z front entries in bijective base 2, least digit first: RUNA is 1, RUNB is 2. */
  function Run(z: nat): (r: seq<int>)
    ensures |r| <= z && (z > 0 ==> r != []) && forall k {:trigger r[k]} :: 0 <= k < |r| ==> r[k] == RUNA || r[k] == RUNB
  {
    if z == 0 then [] else [if (z - 1) % 2 == 1 then RUNB else RUNA] + Run((z - 1) / 2)
  }

  function Find(l: seq<int>, v: int): (j: nat)
    requires v in l
    ensures j < |l| && l[j] == v && forall k :: 0 <= k < j ==> l[k] != v
  {
    if l[0] == v then 0 else 1 + Find(l[1..], v)
  }

  /** The encoder between two bytes: its list, the pending run, what it has written. */
  datatype State = State(l: seq<int>, z: nat, out: seq<int>)

  function Step(e: State, v: int): State
    requires v in e.l
  {
    if e.l[0] == v then e.(z := e.z + 1)
    else State(MoveToFront(e.l, Find(e.l, v)), 0, e.out + Run(e.z) + [Find(e.l, v) + 1])
  }

  /** Moving an entry to the front keeps them all. */
  lemma StepKeeps(e: State, v: int, m: nat)
    requires |e.l| == m && v in e.l && forall u {:trigger u in e.l} :: 0 <= u < m ==> u in e.l
    requires forall k {:trigger e.out[k]} :: 0 <= k < |e.out| ==> 0 <= e.out[k] <= m
    ensures |Step(e, v).l| == m && forall u {:trigger u in Step(e, v).l} :: 0 <= u < m ==> u in Step(e, v).l
    ensures |Step(e, v).out| + Step(e, v).z <= |e.out| + e.z + 1
    ensures forall k {:trigger Step(e, v).out[k]} :: 0 <= k < |Step(e, v).out| ==> 0 <= Step(e, v).out[k] <= m
  {
    var l, r, j := e.l, Step(e, v).l, Find(e.l, v);
    forall u | 0 <= u < m ensures u in r {
      assert u in l;
      var k :| 0 <= k < |l| && l[k] == u;
      if e.l[0] != v { assert r[if k < j then k + 1 else if k == j then 0 else k] == u; }
    }
  }

  function Iota(m: nat): (l: seq<int>)
    ensures |l| == m && forall k {:trigger l[k]} :: 0 <= k < m ==> l[k] == k
  {
    seq(m, k => k)
  }

  lemma IotaAll(m: nat)
    ensures forall v {:trigger v in Iota(m)} :: 0 <= v < m ==> v in Iota(m)
  {
    forall v {:trigger v in Iota(m)} | 0 <= v < m ensures v in Iota(m) { assert Iota(m)[v] == v; }
  }

  /** c is a column of list entries below m. */
  ghost predicate Column(c: seq<int>, m: nat) {
    m <= 256 && forall i {:trigger c[i]} :: 0 <= i < |c| ==> 0 <= c[i] < m
  }

  /** The encoder after the first i entries of c. */
  function After(c: seq<int>, m: nat, i: nat): (e: State)
    requires Column(c, m) && i <= |c|
    ensures |e.l| == m && forall v {:trigger v in e.l} :: 0 <= v < m ==> v in e.l
    ensures |e.out| + e.z <= i
    ensures forall k {:trigger e.out[k]} :: 0 <= k < |e.out| ==> 0 <= e.out[k] <= m
  {
    if i == 0 then
      assert forall v {:trigger v in Iota(m)} :: 0 <= v < m ==> v in Iota(m) by { IotaAll(m); }
      State(Iota(m), 0, [])
    else
      var e := After(c, m, i - 1);
      StepKeeps(e, c[i - 1], m);
      Step(e, c[i - 1])
  }

  /** All the values generateMTFValues writes, with the end-of-block symbol. */
  function Encode(c: seq<int>, m: nat): (r: seq<int>)
    requires Column(c, m)
    ensures 1 <= |r| <= |c| + 1 && r[|r| - 1] == m + 1
    ensures forall k {:trigger r[k]} :: 0 <= k < |r| ==> 0 <= r[k] <= m + 1
  {
    var e := After(c, m, |c|);
    e.out + Run(e.z) + [m + 1]
  }

  // ---- decoding ----

  datatype Outcome = Values(v: seq<int>) | DataError | Incomplete

  /** A run of es entries, coded in so many symbols. */
  datatype RunRead = RunOf(es: int, used: nat) | TooBig | Unfinished

  /** Reads a run, es + 1 of it known already and the next digit weighing n. */
  function ReadRun(syms: seq<int>, es: int, n: nat): (r: RunRead)
    requires syms != [] && n > 0
    ensures r.RunOf? ==> 0 < r.used < |syms| && r.es > es + 1
    decreases |syms|
  {
    if n >= RUN_LIMIT then TooBig
    else
      var es' := es + if syms[0] == RUNA then n else 2 * n;
      if |syms| == 1 then Unfinished
      else if syms[1] == RUNA || syms[1] == RUNB then
        match ReadRun(syms[1..], es', 2 * n)
        case RunOf(all, used) => RunOf(all, used + 1)
        case other => other
      else RunOf(es' + 1, 1)
  }

  /** The decoder: list l, symbols still to come, values so far, at most limit of them. */
  function Decode(l: seq<int>, syms: seq<int>, m: nat, limit: nat, out: seq<int>): (r: Outcome)
    requires 0 < m <= |l|
    requires forall k {:trigger syms[k]} :: 0 <= k < |syms| ==> 0 <= syms[k] <= m + 1
    ensures r.Values? ==> |out| <= |r.v| && (|r.v| <= limit || r.v == out)
    decreases |syms|
  {
    if syms == [] then Incomplete
    else if syms[0] == m + 1 then Values(out)
    else if syms[0] == RUNA || syms[0] == RUNB then
      match ReadRun(syms, -1, 1)
      case TooBig => DataError
      case Unfinished => Incomplete
      case RunOf(es, used) =>
        if |out| + es > limit then DataError else Decode(l, syms[used..], m, limit, out + Rle.Repeat(l[0], es))
    else if |out| >= limit then DataError
    else Decode(MoveToFront(l, syms[0] - 1), syms[1..], m, limit, out + [l[syms[0] - 1]])
  }

  // ---- the round trip ----

  lemma RunWeights(z: nat, y: nat, d: nat, n: nat)
    requires z == 2 * y + d && 1 <= d <= 2
    ensures z * n == y * (2 * n) + d * n && y * (2 * n) <= z * n && n <= z * n
  {
  }

  /** The decoder reads back the length of every run that fits in a block. */
  lemma {:induction false} ReadRunInverts(z: nat, es: int, n: nat, tail: seq<int>)
    requires z > 0 && n > 0 && z * n < RUN_LIMIT && tail != [] && tail[0] > RUNB
    ensures ReadRun(Run(z) + tail, es, n) == RunOf(es + z * n + 1, |Run(z)|)
    decreases z
  {
    var y, d := (z - 1) / 2, (z - 1) % 2 + 1;
    RunWeights(z, y, d, n);
    var syms := Run(z) + tail;
    assert syms[0] == d - 1 && syms[1..] == Run(y) + tail;
    if y > 0 {
      ReadRunInverts(y, es + d * n, 2 * n, tail);
    } else {
      assert Run(y) == [];
    }
  }

  lemma RepeatMore(v: int, s: seq<int>, z: nat)
    ensures s + Rle.Repeat(v, z) + [v] == s + Rle.Repeat(v, z + 1)
  {
  }

  /** Decoding a run. */
  lemma DecodeRun(l: seq<int>, z: nat, tail: seq<int>, m: nat, limit: nat, out: seq<int>)
    requires 0 < m <= |l| && tail != [] && tail[0] > RUNB && z < RUN_LIMIT && |out| + z <= limit
    requires forall k {:trigger tail[k]} :: 0 <= k < |tail| ==> 0 <= tail[k] <= m + 1
    ensures Decode(l, Run(z) + tail, m, limit, out) == Decode(l, tail, m, limit, out + Rle.Repeat(l[0], z))
  {
    if z > 0 {
      ReadRunInverts(z, -1, 1, tail);
      assert (Run(z) + tail)[|Run(z)|..] == tail;
    } else {
      assert Run(z) + tail == tail && out + Rle.Repeat(l[0], z) == out;
    }
  }

  /** The decoder's list while the encoder's is l: the same, then the entries that are not in use. */
  ghost function Full(l: seq<int>): (r: seq<int>)
    requires |l| <= 256
    ensures |r| == 256
  {
    l + seq(256 - |l|, k => |l| + k)
  }

  lemma FullMove(l: seq<int>, n: nat)
    requires n < |l| <= 256
    ensures MoveToFront(Full(l), n) == Full(MoveToFront(l, n)) && Full(l)[n] == l[n]
  {
  }

  ghost predicate Symbols(s: seq<int>, m: nat) {
    forall k {:trigger s[k]} :: 0 <= k < |s| ==> 0 <= s[k] <= m + 1
  }

  /** Decoding one entry that is not at the front. */
  lemma DecodeMove(l: seq<int>, j: nat, tail: seq<int>, m: nat, limit: nat, out: seq<int>)
    requires 0 < j < |l| == m <= 256 && Symbols(tail, m) && |out| < limit
    ensures Symbols([j + 1] + tail, m)
    ensures Decode(Full(l), [j + 1] + tail, m, limit, out) ==
      Decode(Full(MoveToFront(l, j)), tail, m, limit, out + [l[j]])
  {
    FullMove(l, j);
    assert ([j + 1] + tail)[1..] == tail;
  }

  /** A pending run and then another entry. */
  lemma DecodeRunMove(e: State, v: int, tail: seq<int>, m: nat, limit: nat, out: seq<int>)
    requires |e.l| == m <= 256 && v in e.l && e.l[0] != v && Symbols(tail, m) && |out| + e.z < limit && e.z < RUN_LIMIT
    ensures var more := Run(e.z) + ([Find(e.l, v) + 1] + tail);
            && Symbols(more, m)
            && Decode(Full(e.l), more, m, limit, out) ==
               Decode(Full(Step(e, v).l), tail, m, limit, out + Rle.Repeat(e.l[0], e.z) + [v])
            && e.out + more == Step(e, v).out + tail
  {
    var j := Find(e.l, v);
    DecodeMove(e.l, j, tail, m, limit, out + Rle.Repeat(e.l[0], e.z));
    DecodeRun(Full(e.l), e.z, [j + 1] + tail, m, limit, out);
  }

  /** The decoder goes through what the encoder has written, with done decoded and tail to come. */
  ghost predicate Reaches(e: State, done: seq<int>, tail: seq<int>, m: nat, limit: nat) {
    && 0 < m == |e.l| <= 256 && Symbols(tail, m) && Symbols(e.out + tail, m)
    && Decode(Full(Iota(m)), e.out + tail, m, limit, []) == Decode(Full(e.l), tail, m, limit, done)
  }

  /** Reaches, kept closed while it is only passed on. */
  ghost predicate Reached(e: State, done: seq<int>, tail: seq<int>, m: nat, limit: nat) {
    forall u {:trigger Open(e, u)} :: Open(e, u) ==> Reaches(e, done, tail, m, limit)
  }

  ghost predicate Open(e: State, u: int) { true }

  lemma ReachedOpens(e: State, done: seq<int>, tail: seq<int>, m: nat, limit: nat)
    ensures Reached(e, done, tail, m, limit) <==> Reaches(e, done, tail, m, limit)
  {
    assert Open(e, 0);
  }

  lemma SameReached(e: State, done: seq<int>, tail: seq<int>, m: nat, limit: nat)
    requires Reached(e, done, tail, m, limit)
    ensures Reached(e.(z := e.z + 1), done, tail, m, limit)
  {
    ReachedOpens(e, done, tail, m, limit);
  }

  lemma StepReached(e: State, v: int, done: seq<int>, tail: seq<int>, m: nat, limit: nat)
    requires |e.l| == m <= 256 && v in e.l && e.l[0] != v && Symbols(tail, m) && |done| + e.z < limit && e.z < RUN_LIMIT
    requires Reached(e, done, More(e, v, tail), m, limit)
    ensures Reached(Step(e, v), done + Rle.Repeat(e.l[0], e.z) + [v], tail, m, limit)
  {
    ReachedOpens(e, done, More(e, v, tail), m, limit);
    StepReaches(e, v, done, tail, m, limit);
  }

  lemma StepReaches(e: State, v: int, done: seq<int>, tail: seq<int>, m: nat, limit: nat)
    requires |e.l| == m <= 256 && v in e.l && e.l[0] != v && Symbols(tail, m) && |done| + e.z < limit && e.z < RUN_LIMIT
    requires Reaches(e, done, Run(e.z) + ([Find(e.l, v) + 1] + tail), m, limit)
    ensures Reaches(Step(e, v), done + Rle.Repeat(e.l[0], e.z) + [v], tail, m, limit)
  {
    DecodeRunMove(e, v, tail, m, limit, done);
  }

  /** What the encoder has written decodes to all but the pending run. */
  ghost predicate Decodes(c: seq<int>, m: nat, i: nat, tail: seq<int>, limit: nat)
    requires Column(c, m) && 0 < m && i <= |c|
  {
    var e := After(c, m, i);
    Reached(e, c[..i - e.z], tail, m, limit) && c[..i] == c[..i - e.z] + Rle.Repeat(e.l[0], e.z)
  }

  ghost predicate DecodesAlways(c: seq<int>, m: nat, i: nat, limit: nat)
    requires Column(c, m) && 0 < m && i <= |c|
  {
    forall tail {:trigger Decodes(c, m, i, tail, limit)} :: Symbols(tail, m) ==> Decodes(c, m, i, tail, limit)
  }

  lemma DecodesSame(c: seq<int>, m: nat, i: nat, tail: seq<int>, limit: nat)
    requires Column(c, m) && 0 < m && 0 < i <= |c| && Symbols(tail, m) && DecodesAlways(c, m, i - 1, limit)
    requires After(c, m, i - 1).l[0] == c[i - 1]
    ensures Decodes(c, m, i, tail, limit)
  {
    assert Decodes(c, m, i - 1, tail, limit);
    var d, v := After(c, m, i - 1), c[i - 1];
    assert After(c, m, i) == d.(z := d.z + 1) && c[..i] == c[..i - 1] + [v];
    RepeatMore(v, c[..i - 1 - d.z], d.z);
    SameReached(d, c[..i - 1 - d.z], tail, m, limit);
  }

  /** What the encoder writes for an entry that is not at the front, and then tail. */
  ghost function More(e: State, v: int, tail: seq<int>): seq<int>
    requires v in e.l
  {
    Run(e.z) + ([Find(e.l, v) + 1] + tail)
  }

  lemma MoveSymbols(e: State, v: int, tail: seq<int>, m: nat)
    requires v in e.l && |e.l| == m && Symbols(tail, m)
    ensures Symbols(More(e, v, tail), m)
  {
  }

  lemma PrefixMore(c: seq<int>, i: nat)
    requires 0 < i <= |c|
    ensures c[..i] == c[..i - 1] + [c[i - 1]]
  {
  }

  lemma MovedReached(c: seq<int>, i: nat, d: State, tail: seq<int>, m: nat, limit: nat)
    requires 0 < i <= |c| <= limit && |c| < RUN_LIMIT && |d.l| == m <= 256 && c[i - 1] in d.l && d.l[0] != c[i - 1]
      && d.z < i
    requires Symbols(tail, m) && c[..i - 1] == c[..i - 1 - d.z] + Rle.Repeat(d.l[0], d.z)
    requires Reached(d, c[..i - 1 - d.z], More(d, c[i - 1], tail), m, limit)
    ensures Reached(Step(d, c[i - 1]), c[..i], tail, m, limit)
  {
    PrefixMore(c, i);
    StepReached(d, c[i - 1], c[..i - 1 - d.z], tail, m, limit);
  }

  lemma DecodesMoved(c: seq<int>, m: nat, i: nat, tail: seq<int>, limit: nat)
    requires Column(c, m) && 0 < m && 0 < i <= |c| <= limit && |c| < RUN_LIMIT && Symbols(tail, m)
    requires DecodesAlways(c, m, i - 1, limit) && After(c, m, i - 1).l[0] != c[i - 1]
    ensures Decodes(c, m, i, tail, limit)
  {
    var d, v := After(c, m, i - 1), c[i - 1];
    assert v in d.l;
    MoveSymbols(d, v, tail, m);
    assert Decodes(c, m, i - 1, More(d, v, tail), limit);
    MovedReached(c, i, d, tail, m, limit);
    assert After(c, m, i).z == 0 && c[..i] == c[..i] + Rle.Repeat(0, 0);
  }

  lemma DecodesNothing(c: seq<int>, m: nat, tail: seq<int>, limit: nat)
    requires Column(c, m) && 0 < m && Symbols(tail, m)
    ensures Decodes(c, m, 0, tail, limit)
  {
    assert After(c, m, 0).out + tail == tail;
    ReachedOpens(After(c, m, 0), [], tail, m, limit);
  }

  lemma {:induction false} DecodeAfter(c: seq<int>, m: nat, i: nat, limit: nat)
    requires Column(c, m) && 0 < m && i <= |c| <= limit && |c| < RUN_LIMIT
    ensures DecodesAlways(c, m, i, limit)
    decreases i
  {
    if i > 0 { DecodeAfter(c, m, i - 1, limit); }
    forall tail {:trigger Decodes(c, m, i, tail, limit)} | Symbols(tail, m) ensures Decodes(c, m, i, tail, limit) {
      if i == 0 {
        DecodesNothing(c, m, tail, limit);
      } else if After(c, m, i - 1).l[0] == c[i - 1] {
        DecodesSame(c, m, i, tail, limit);
      } else {
        DecodesMoved(c, m, i, tail, limit);
      }
    }
  }

  /** Decoding what the encoder writes gives the column back, for every column that fits in a block. */
  lemma DecodeInvertsEncode(c: seq<int>, m: nat, limit: nat)
    requires Column(c, m) && 0 < m && |c| <= limit <= 900000
    ensures Decode(Iota(256), Encode(c, m), m, limit, []) == Values(c)
  {
    var e, tail := After(c, m, |c|), [m + 1];
    assert Full(Iota(m)) == Iota(256);
    assert Encode(c, m) == e.out + (Run(e.z) + tail);
    DecodeAfter(c, m, |c|, limit);
    assert Decodes(c, m, |c|, Run(e.z) + tail, limit);
    ReachedOpens(e, c[..|c| - e.z], Run(e.z) + tail, m, limit);
    DecodeRun(Full(e.l), e.z, tail, m, limit, c[..|c| - e.z]);
    assert c[..|c|] == c;
  }
}
