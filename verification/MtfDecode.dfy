/** The decoder of move-to-front values: symbols in, the last column and its byte counts out. */
module MtfDecode {
  import opened MtfTable
  import opened Mtf
  import Rle
  import opened Counting

  datatype Status = Done | BadData | NeedMore

  /** Reads the run that starts at k0. */
  method GetRun(syms: seq<int>, k0: nat) returns (r: Status, es: int, k: nat)
    requires k0 < |syms| && (syms[k0] == RUNA || syms[k0] == RUNB)
    ensures r ==
      match ReadRun(syms[k0..], -1, 1) case TooBig => BadData case Unfinished => NeedMore case RunOf(_, _) => Done
    ensures r == Done ==> k0 < k < |syms| && ReadRun(syms[k0..], -1, 1) == RunOf(es, k - k0) && es > 0
  {
    es, k := -1, k0;
    var n := 1;
    while true
      invariant k0 <= k < |syms| && n > 0 && es >= -1
      invariant Later(ReadRun(syms[k..], es, n), k - k0) == ReadRun(syms[k0..], -1, 1)
      decreases |syms| - k
    {
      assert syms[k..][1..] == syms[k + 1..];
      if n >= RUN_LIMIT { return BadData, es, k; }
      if syms[k] == RUNA { es := es + n; } else { es := es + 2 * n; }
      n := n * 2;
      k := k + 1;
      if k == |syms| { return NeedMore, es, k; }
      if syms[k] != RUNA && syms[k] != RUNB { break; }
    }
    es := es + 1;
    r := Done;
  }

  ghost function Later(r: RunRead, d: nat): RunRead {
    match r
    case RunOf(es, used) => RunOf(es, used + d)
    case other => other
  }

  /** The bytes the list entries stand for. */
  ghost function Bytes(seqToUnseq: seq<int>, v: seq<int>): (r: seq<nat>)
    ensures |r| == |v|
  {
    seq(|v|,
      k requires 0 <= k < |v| => if 0 <= v[k] < |seqToUnseq| && seqToUnseq[v[k]] >= 0 then seqToUnseq[v[k]] else 0)
  }

  lemma {:induction false} OccPrefix(s: seq<nat>, t: seq<nat>, c: int, i: nat)
    requires i <= |s| && i <= |t| && s[..i] == t[..i]
    ensures Occ(s, c, i) == Occ(t, c, i)
  {
    if i > 0 {
      assert s[i - 1] == s[..i][i - 1] == t[..i][i - 1] == t[i - 1];
      assert s[..i - 1] == s[..i][..i - 1] == t[..i - 1];
      OccPrefix(s, t, c, i - 1);
    }
  }

  lemma {:induction false} OccRepeat(s: seq<nat>, b: nat, n: nat, c: int)
    requires n <= |s| && forall k {:trigger s[k]} :: |s| - n <= k < |s| ==> s[k] == b
    ensures Occ(s, c, |s|) == Occ(s, c, |s| - n) + if c == b then n else 0
    decreases n
  {
    if n > 0 {
      var m := |s| - 1;
      var p := s[..m];
      OccPrefix(s, p, c, m);
      OccPrefix(s, p, c, |s| - n);
      OccRepeat(p, b, n - 1, c);
    }
  }

  /** The column so far is in tt and counted in unzftab. */
  ghost predicate Column256(tt: seq<int>, unzftab: seq<int>, bytes: seq<nat>) {
    && |bytes| <= |tt| && |unzftab| == 256
    && (forall k {:trigger tt[k]} :: 0 <= k < |bytes| ==> tt[k] == bytes[k])
    && forall c {:trigger unzftab[c]} :: 0 <= c < 256 ==> unzftab[c] == Occ(bytes, c, |bytes|)
  }

  lemma MoreColumn(tt: seq<int>, tt': seq<int>, unzftab: seq<int>, bytes: seq<nat>, uc: nat, es: nat, bytes': seq<nat>)
    requires Column256(tt, unzftab, bytes) && uc < 256 && |bytes| + es == |bytes'| <= |tt'|
      && bytes'[..|bytes|] == bytes
    requires forall k {:trigger bytes'[k]} :: |bytes| <= k < |bytes'| ==> bytes'[k] == uc
    requires forall k {:trigger tt'[k]} :: 0 <= k < |bytes'| ==> tt'[k] == if k < |bytes| then tt[k] else uc
    ensures Column256(tt', unzftab[uc := unzftab[uc] + es], bytes')
  {
    var u := unzftab[uc := unzftab[uc] + es];
    forall k {:trigger tt'[k]} | 0 <= k < |bytes'| ensures tt'[k] == bytes'[k] {
      if k < |bytes| { assert bytes'[..|bytes|][k] == bytes[k] && tt[k] == bytes[k]; }
    }
    forall c {:trigger u[c]} | 0 <= c < 256 ensures u[c] == Occ(bytes', c, |bytes'|) {
      OccRepeat(bytes', uc, es, c);
      assert bytes'[..|bytes|] == bytes[..|bytes|];
      OccPrefix(bytes', bytes, c, |bytes|);
      assert unzftab[c] == Occ(bytes, c, |bytes|);
    }
  }

  /** Adds es copies of uc to the column, if there is room. */
  method Append(tt: array<int>, unzftab: array<int>, uc: int, es: nat, nblock0: nat, limit: nat, ghost bytes: seq<nat>,
      ghost bytes': seq<nat>)
      returns (ok: bool, nblock: nat)
    requires tt != unzftab && limit <= tt.Length && nblock0 == |bytes| <= limit && 0 <= uc < 256
      && Column256(tt[..], unzftab[..], bytes)
    requires |bytes'| == |bytes| + es && bytes'[..|bytes|] == bytes
    requires forall k {:trigger bytes'[k]} :: |bytes| <= k < |bytes'| ==> bytes'[k] == uc
    modifies tt, unzftab
    ensures ok <==> nblock0 + es <= limit
    ensures ok ==> nblock == nblock0 + es && Column256(tt[..], unzftab[..], bytes')
  {
    ghost var was, counts := tt[..], unzftab[..];
    unzftab[uc] := unzftab[uc] + es;
    assert unzftab[..] == counts[uc := counts[uc] + es];
    nblock := nblock0;
    var left := es;
    while left > 0
      invariant left + nblock == nblock0 + es && nblock0 <= nblock <= limit && left >= 0
      invariant unzftab[..] == counts[uc := counts[uc] + es]
      invariant forall k {:trigger tt[k]} :: 0 <= k < nblock ==> tt[k] == if k < nblock0 then was[k] else uc
    {
      if nblock >= limit { return false, nblock; }
      tt[nblock] := uc;
      nblock := nblock + 1;
      left := left - 1;
    }
    ok := true;
    MoreColumn(was, tt[..], counts, bytes, uc, es, bytes');
  }

  /** What is left to decode, with the entries of l all below 256. */
  ghost predicate Goes(l: seq<int>, syms: seq<int>, m: nat, limit: nat, out: seq<int>, all: Outcome) {
    && 0 < m <= 256 == |l| && Symbols(syms, m) && Decode(l, syms, m, limit, out) == all
    && (forall k {:trigger l[k]} :: 0 <= k < 256 ==> 0 <= l[k] < 256)
  }

  lemma GoesRun(l: seq<int>, syms: seq<int>, m: nat, limit: nat, out: seq<int>, all: Outcome, es: nat, used: nat)
    requires Goes(l, syms, m, limit, out, all) && syms != [] && (syms[0] == RUNA || syms[0] == RUNB)
      && 0 < used <= |syms|
    requires ReadRun(syms, -1, 1) == RunOf(es, used)
    ensures if |out| + es > limit then all == DataError
      else Goes(l, syms[used..], m, limit, out + Rle.Repeat(l[0], es), all)
  {
  }

  lemma GoesMove(l: seq<int>, syms: seq<int>, m: nat, limit: nat, out: seq<int>, all: Outcome)
    requires Goes(l, syms, m, limit, out, all) && syms != [] && RUNB < syms[0] <= m
    ensures if |out| >= limit then all == DataError
            else Goes(MoveToFront(l, syms[0] - 1), syms[1..], m, limit, out + [l[syms[0] - 1]], all)
  {
  }

  lemma BytesMore(seqToUnseq: seq<int>, out: seq<int>, v: int, es: nat)
    requires |seqToUnseq| == 256 && 0 <= v < 256 && 0 <= seqToUnseq[v]
    ensures var b, b' := Bytes(seqToUnseq, out), Bytes(seqToUnseq, out + Rle.Repeat(v, es));
            b'[..|b|] == b && forall k {:trigger b'[k]} :: |b| <= k < |b'| ==> b'[k] == seqToUnseq[v]
  {
  }

  /** The decoding loop, on symbols already read from the stream: it computes exactly Decode. */
  method DecodeValues(syms: seq<int>, m: nat, seqToUnseq: array<int>, tt: array<int>, limit: nat)
      returns (r: Status, nblock: nat, unzftab: array<int>, ghost v: seq<int>)
    requires 0 < m <= 256 && Symbols(syms, m) && limit <= tt.Length && seqToUnseq.Length == 256 && tt != seqToUnseq
    requires forall k {:trigger seqToUnseq[k]} :: 0 <= k < 256 ==> 0 <= seqToUnseq[k] < 256
    modifies tt
    ensures fresh(unzftab)
    ensures Decode(Iota(256), syms, m, limit, []) ==
      match r case Done => Values(v) case BadData => DataError case NeedMore => Incomplete
    ensures r == Done ==> nblock == |v| && Column256(tt[..], unzftab[..], Bytes(seqToUnseq[..], v))
  {
    ghost var map_, l, all := seqToUnseq[..], Iota(256), Decode(Iota(256), syms, m, limit, []);
    var table := new Table();
    assert l == seq(256, k => k);
    unzftab := new int[256](_ => 0);
    v, nblock := [], 0;
    var k := 0;
    assert syms[0..] == syms;
    while k < |syms|
      modifies tt, unzftab, table.a, table.base
      invariant 0 <= k <= |syms| && table.Valid(l) && Goes(l, syms[k..], m, limit, v, all)
      invariant nblock == |v| <= limit && Column256(tt[..], unzftab[..], Bytes(map_, v))
    {
      ghost var rest := syms[k..];
      var next := syms[k];
      assert next == rest[0] && rest[1..] == syms[k + 1..];
      if next == m + 1 { return Done, nblock, unzftab, v; }
      if next == RUNA || next == RUNB {
        var st, es, k1 := GetRun(syms, k);
        if st != Done { return st, nblock, unzftab, v; }
        GoesRun(l, rest, m, limit, v, all, es, k1 - k);
        assert rest[k1 - k..] == syms[k1..];
        var front := table.Front(l);
        BytesMore(map_, v, l[0], es);
        assert map_[front] == seqToUnseq[front];
        var ok;
        ok, nblock := Append(tt, unzftab, seqToUnseq[front], es, nblock, limit, Bytes(map_, v),
          Bytes(map_, v + Rle.Repeat(l[0], es)));
        if !ok { return BadData, nblock, unzftab, v; }
        v, k := v + Rle.Repeat(l[0], es), k1;
      } else {
        GoesMove(l, rest, m, limit, v, all);
        if nblock >= limit { return BadData, nblock, unzftab, v; }
        var uc := table.Take(next - 1, l);
        assert Rle.Repeat(uc, 1) == [uc];
        BytesMore(map_, v, uc, 1);
        assert map_[uc] == seqToUnseq[uc];
        var ok;
        ok, nblock := Append(tt, unzftab, seqToUnseq[uc], 1, nblock, limit, Bytes(map_, v), Bytes(map_, v + [uc]));
        v, l, k := v + [uc], MoveToFront(l, next - 1), k + 1;
      }
    }
    assert syms[k..] == [];
    return NeedMore, nblock, unzftab, v;
  }
}
