/** Canonical Huffman codes: BZ2_hbAssignCodes on one side, BZ2_hbCreateDecodeTables and the symbol
    reader GET_MTF_VAL on the other. */
module Canonical {
  import opened Counting
  import opened Bits
  import Tree = HuffmanTree

  const MAX_CODE_LEN := 23
  /** The longest code the decoder accepts. */
  const LONGEST := 20

  /** The first code of length n. */
  function First(len: seq<nat>, n: nat): nat {
    if n == 0 then 0 else 2 * (First(len, n - 1) + Occ(len, n - 1, |len|))
  }

  /** The code of symbol i, as a number of len[i] bits. */
  function Code(len: seq<nat>, i: nat): nat
    requires i < |len|
  {
    First(len, len[i]) + Occ(len, len[i], i)
  }

  ghost predicate Lengths(len: seq<nat>, lo: nat, hi: nat) {
    && lo <= hi <= LONGEST && |len| <= MAX_ALPHA
    && forall i {:trigger len[i]} :: 0 <= i < |len| ==> lo <= len[i] <= hi
  }

  lemma {:induction false} NoneShorter(len: seq<nat>, lo: nat, hi: nat, n: nat, k: nat)
    requires Lengths(len, lo, hi) && n < lo && k <= |len|
    ensures Occ(len, n, k) == 0
    decreases k
  {
    if k > 0 { NoneShorter(len, lo, hi, n, k - 1); }
  }

  lemma {:induction false} FirstZero(len: seq<nat>, lo: nat, hi: nat, n: nat)
    requires Lengths(len, lo, hi) && n <= lo
    ensures First(len, n) == 0 && Less(len, n, |len|) == 0
    decreases n
  {
    if n > 0 {
      FirstZero(len, lo, hi, n - 1);
      NoneShorter(len, lo, hi, n - 1, |len|);
    }
  }

  // ---- codes fit their lengths ----

  /** The code space taken by the first k symbols with lengths up to n, in units of 2^-lim. */
  ghost function Taken(len: seq<nat>, n: nat, lim: nat, k: nat): nat
    requires k <= |len|
  {
    if k == 0 then 0
      else Taken(len, n, lim, k - 1) + if len[k - 1] <= n && len[k - 1] <= lim then Pow2(lim - len[k - 1]) else 0
  }

  lemma {:induction false} TakenStep(len: seq<nat>, n: nat, lim: nat, k: nat)
    requires k <= |len| && n < lim
    ensures Taken(len, n + 1, lim, k) == Taken(len, n, lim, k) + Occ(len, n + 1, k) * Pow2(lim - (n + 1))
  {
    if k > 0 {
      TakenStep(len, n, lim, k - 1);
      OneMore(Occ(len, n + 1, k - 1), Pow2(lim - (n + 1)));
    }
  }

  lemma OneMore(x: int, p: int)
    ensures (x + 1) * p == x * p + p
  {
  }

  lemma {:induction false} TakenMono(len: seq<nat>, n: nat, m: nat, lim: nat, k: nat)
    requires k <= |len| && n <= m
    ensures Taken(len, n, lim, k) <= Taken(len, m, lim, k)
  {
    if k > 0 { TakenMono(len, n, m, lim, k - 1); }
  }

  lemma {:induction false} TakenZero(len: seq<nat>, lim: nat, k: nat)
    requires k <= |len|
    ensures Taken(len, 0, lim, k) == Occ(len, 0, k) * Pow2(lim)
  {
    if k > 0 {
      TakenZero(len, lim, k - 1);
      OneMore(Occ(len, 0, k - 1), Pow2(lim));
    }
  }

  /** The codes of length up to n take First(n) + Occ(n) of the 2^n strings of that length. */
  lemma {:induction false} TakenIs(len: seq<nat>, n: nat, lim: nat)
    requires n <= lim
    ensures Taken(len, n, lim, |len|) == (First(len, n) + Occ(len, n, |len|)) * Pow2(lim - n)
  {
    if n == 0 {
      TakenZero(len, lim, |len|);
    } else {
      TakenIs(len, n - 1, lim);
      TakenStep(len, n - 1, lim, |len|);
      var k := First(len, n - 1) + Occ(len, n - 1, |len|);
      assert Pow2(lim - (n - 1)) == 2 * Pow2(lim - n);
      Halve(Taken(len, n - 1, lim, |len|), k, Occ(len, n, |len|), Pow2(lim - n), Pow2(lim - (n - 1)));
    }
  }

  lemma Halve(t: int, k: int, c: int, p: int, q: int)
    requires t == k * q && q == 2 * p
    ensures t + c * p == (2 * k + c) * p
  {
  }

  lemma {:induction false} TakenAll(len: seq<nat>, lim: nat, k: nat)
    requires k <= |len| && forall i {:trigger len[i]} :: 0 <= i < |len| ==> len[i] <= lim
    ensures Taken(len, lim, lim, k) == Tree.Sum(Tree.Shares(len, lim)[..k])
  {
    if k > 0 {
      TakenAll(len, lim, k - 1);
      assert Tree.Shares(len, lim)[..k][..k - 1] == Tree.Shares(len, lim)[..k - 1];
    }
  }

  /** The Kraft inequality. */
  ghost predicate Kraft(len: seq<nat>, lim: nat) {
    (forall i {:trigger len[i]} :: 0 <= i < |len| ==> len[i] <= lim) && Tree.Sum(Tree.Shares(len, lim)) <= Pow2(lim)
  }

  lemma CodesFit(len: seq<nat>, lim: nat, n: nat)
    requires Kraft(len, lim) && n <= lim
    ensures First(len, n) + Occ(len, n, |len|) <= Pow2(n)
  {
    var s := Tree.Shares(len, lim);
    assert s[..|len|] == s;
    TakenAll(len, lim, |len|);
    TakenMono(len, n, lim, lim, |len|);
    TakenIs(len, n, lim);
    PowAdd(n, lim - n);
    CancelLe(First(len, n) + Occ(len, n, |len|), Pow2(n), Pow2(lim - n));
  }

  lemma CodeFits(len: seq<nat>, lim: nat, i: nat)
    requires Kraft(len, lim) && i < |len|
    ensures Code(len, i) < Pow2(len[i])
  {
    CodesFit(len, lim, len[i]);
    OccMono(len, len[i], i + 1, |len|);
  }

  // ---- reading a code back ----

  /** A prefix of a longer code is above all the codes of its own length. */
  lemma {:induction false} PrefixAbove(len: seq<nat>, n: nat, zn: nat, c: nat)
    requires zn < n && c >= First(len, n)
    ensures Shr(c, n - zn) >= First(len, zn) + Occ(len, zn, |len|)
    decreases n - zn
  {
    if zn + 1 < n {
      PrefixAbove(len, n, zn + 1, c);
    } else {
      assert Shr(c, 1) == Shr(c, 0) / 2;
    }
  }

  /** The decoder's tables for len. */
  ghost predicate Tables(len: seq<nat>, lo: nat, hi: nat, limit: seq<int>, base: seq<int>, perm: seq<int>) {
    && Lengths(len, lo, hi) && |limit| == |base| == MAX_CODE_LEN && |perm| == MAX_ALPHA
    && (forall n {:trigger limit[n]} :: lo <= n <= hi ==> limit[n] == First(len, n) + Occ(len, n, |len|) - 1)
    && (forall n {:trigger base[n]} :: lo <= n <= hi ==> base[n] == First(len, n) - Less(len, n, |len|))
    && (forall i {:trigger T(len, i)} :: 0 <= i < |len| ==> 0 <= T(len, i) < MAX_ALPHA && perm[T(len, i)] == i)
  }

  /** The test of GET_MTF_VAL after zn bits with value zvec: a symbol, more bits wanted, or wrong. */
  datatype Found = Hit(sym: int) | Miss | Wrong

  function LookUp(limit: seq<int>, base: seq<int>, perm: seq<int>, zn: int, zvec: int): Found
    requires |limit| == |base| == MAX_CODE_LEN && |perm| >= MAX_ALPHA
  {
    if zn > LONGEST || zn < 0 then Wrong
    else if zvec <= limit[zn] then
      var slot := zvec - base[zn];
      if slot < 0 || slot >= MAX_ALPHA then Wrong else Hit(perm[slot])
    else Miss
  }

  datatype Read = Sym(v: int, rest: Bitstring) | Bad | More

  /** GET_MTF_VAL after zn bits with value zvec: the rest of the bits of one symbol. */
  function ReadOn(limit: seq<int>, base: seq<int>, perm: seq<int>, zn: nat, zvec: nat, bits: Bitstring): (r: Read)
    requires |limit| == |base| == MAX_CODE_LEN && |perm| == MAX_ALPHA
    decreases |bits|
  {
    match LookUp(limit, base, perm, zn, zvec)
    case Hit(sym) => Sym(sym, bits)
    case Wrong => Bad
    case Miss => if bits == [] then More else ReadOn(limit, base, perm, zn + 1, 2 * zvec + bits[0], bits[1..])
  }

  function ReadSym(limit: seq<int>, base: seq<int>, perm: seq<int>, lo: nat, bits: Bitstring): (r: Read)
    requires |limit| == |base| == MAX_CODE_LEN && |perm| == MAX_ALPHA
  {
    if |bits| < lo then More else ReadOn(limit, base, perm, lo, Value(bits[..lo]), bits[lo..])
  }

  /** At the code's own length the tables give the symbol. */
  lemma ReadEnds(len: seq<nat>, lo: nat, hi: nat, limit: seq<int>, base: seq<int>, perm: seq<int>, i: nat,
      rest: Bitstring)
    requires Tables(len, lo, hi, limit, base, perm) && i < |len|
    ensures ReadOn(limit, base, perm, len[i], Code(len, i), rest) == Sym(i, rest)
  {
    var n := len[i];
    OccMono(len, n, i + 1, |len|);
    assert limit[n] == First(len, n) + Occ(len, n, |len|) - 1;
    assert base[n] == First(len, n) - Less(len, n, |len|);
    assert Code(len, i) - base[n] == T(len, i);
  }

  /** A part of a code is none. */
  lemma ReadGoesOn(len: seq<nat>, lo: nat, hi: nat, limit: seq<int>, base: seq<int>, perm: seq<int>, i: nat, zn: nat,
      bits: Bitstring)
    requires Tables(len, lo, hi, limit, base, perm) && i < |len| && lo <= zn < len[i] && Code(len, i) < Pow2(len[i])
      && bits != []
    ensures var v := Shr(Code(len, i), len[i] - zn);
      ReadOn(limit, base, perm, zn, v, bits) == ReadOn(limit, base, perm, zn + 1, 2 * v + bits[0], bits[1..])
  {
    PrefixAbove(len, len[i], zn, Code(len, i));
    assert limit[zn] == First(len, zn) + Occ(len, zn, |len|) - 1;
  }

  lemma {:induction false} ReadPrefix(len: seq<nat>, lo: nat, hi: nat, limit: seq<int>, base: seq<int>, perm: seq<int>,
      i: nat, zn: nat, tail: Bitstring, rest: Bitstring)
    requires Tables(len, lo, hi, limit, base, perm) && i < |len| && lo <= zn <= len[i] && Code(len, i) < Pow2(len[i])
    requires tail == ToBits(Code(len, i), len[i])[zn..]
    ensures ReadOn(limit, base, perm, zn, Shr(Code(len, i), len[i] - zn), tail + rest) == Sym(i, rest)
    decreases len[i] - zn
  {
    var n, c := len[i], Code(len, i);
    if zn == n {
      assert tail + rest == rest;
      ReadEnds(len, lo, hi, limit, base, perm, i, rest);
    } else {
      NextBit(c, n, zn);
      ReadPrefix(len, lo, hi, limit, base, perm, i, zn + 1, tail[1..], rest);
      ReadGoesOn(len, lo, hi, limit, base, perm, i, zn, tail + rest);
      assert (tail + rest)[1..] == tail[1..] + rest;
    }
  }

  lemma NextBit(c: nat, n: nat, k: nat)
    requires c < Pow2(n) && k < n
    ensures Shr(c, n - (k + 1)) == 2 * Shr(c, n - k) + ToBits(c, n)[k]
  {
    ValuePrefix(c, n, k);
    ValuePrefix(c, n, k + 1);
    assert ToBits(c, n)[..k + 1] == ToBits(c, n)[..k] + [ToBits(c, n)[k]];
    ValueMore(ToBits(c, n)[..k], ToBits(c, n)[k]);
  }

  /** A written code is read back, with exactly its own bits. */
  lemma ReadInverts(len: seq<nat>, lo: nat, hi: nat, limit: seq<int>, base: seq<int>, perm: seq<int>, i: nat,
      rest: Bitstring)
    requires Tables(len, lo, hi, limit, base, perm) && i < |len| && Code(len, i) < Pow2(len[i])
    ensures ReadSym(limit, base, perm, lo, ToBits(Code(len, i), len[i]) + rest) == Sym(i, rest)
  {
    var n, c := len[i], Code(len, i);
    SplitAt(ToBits(c, n), rest, lo);
    ValuePrefix(c, n, lo);
    ReadPrefix(len, lo, hi, limit, base, perm, i, lo, ToBits(c, n)[lo..], rest);
    ReadFrom(limit, base, perm, lo, ToBits(c, n) + rest, Shr(c, n - lo), ToBits(c, n)[lo..] + rest);
  }

  lemma SplitAt(code: Bitstring, rest: Bitstring, lo: nat)
    requires lo <= |code|
    ensures (code + rest)[..lo] == code[..lo] && (code + rest)[lo..] == code[lo..] + rest
  {
  }

  lemma ReadFrom(limit: seq<int>, base: seq<int>, perm: seq<int>, lo: nat, bits: Bitstring, v: nat, more: Bitstring)
    requires |limit| == |base| == MAX_CODE_LEN && |perm| == MAX_ALPHA && lo <= |bits| && Value(bits[..lo]) == v
      && bits[lo..] == more
    ensures ReadSym(limit, base, perm, lo, bits) == ReadOn(limit, base, perm, lo, v, more)
  {
  }

  // ---- the loops that build the tables ----

  /** BZ2_hbAssignCodes. */
  method AssignCodes(code: array<int>, length: array<int>, minLen: nat, maxLen: nat, alphaSize: nat,
      ghost len: seq<nat>)
    requires code != length && alphaSize <= code.Length && alphaSize <= length.Length && length[..alphaSize] == len
    requires Lengths(len, minLen, maxLen)
    modifies code
    ensures forall i {:trigger code[i]} :: 0 <= i < alphaSize ==> code[i] == Code(len, i)
  {
    assert forall i {:trigger length[i]} :: 0 <= i < alphaSize ==> length[i] == length[..alphaSize][i] == len[i];
    var vec := 0;
    FirstZero(len, minLen, maxLen, minLen);
    for n := minLen to maxLen + 1
      invariant vec == First(len, n)
      invariant forall i {:trigger code[i]} :: 0 <= i < alphaSize && len[i] < n ==> code[i] == Code(len, i)
    {
      for i := 0 to alphaSize
        invariant vec == First(len, n) + Occ(len, n, i)
        invariant forall k {:trigger code[k]} ::
          0 <= k < alphaSize && (len[k] < n || (len[k] == n && k < i)) ==> code[k] == Code(len, k)
      {
        if length[i] == n { code[i] := vec; vec := vec + 1; }
      }
      vec := vec * 2;
    }
  }

  /** perm lists the symbols by length. */
  method FillPerm(perm: array<int>, length: array<int>, minLen: nat, maxLen: nat, alphaSize: nat, ghost len: seq<nat>)
    requires perm != length && perm.Length == MAX_ALPHA && alphaSize <= length.Length && length[..alphaSize] == len
    requires Lengths(len, minLen, maxLen)
    modifies perm
    ensures forall i {:trigger T(len, i)} :: 0 <= i < alphaSize ==> 0 <= T(len, i) < MAX_ALPHA && perm[T(len, i)] == i
  {
    assert forall i {:trigger length[i]} :: 0 <= i < alphaSize ==> length[i] == length[..alphaSize][i] == len[i];
    var pp := 0;
    FirstZero(len, minLen, maxLen, minLen);
    LessBound(len, minLen, |len|);
    for n := minLen to maxLen + 1
      invariant pp == Less(len, n, |len|) <= |len|
      invariant forall i {:trigger T(len, i)} ::
        0 <= i < alphaSize && len[i] < n ==> 0 <= T(len, i) < pp && perm[T(len, i)] == i
    {
      LessBound(len, n + 1, |len|);
      for i := 0 to alphaSize
        invariant pp == Less(len, n, |len|) + Occ(len, n, i) <= |len|
        invariant forall k {:trigger T(len, k)} :: 0 <= k < alphaSize && (len[k] < n || (len[k] == n && k < i)) ==>
          0 <= T(len, k) < pp && perm[T(len, k)] == k
      {
        OccMono(len, n, i, |len|);
        if length[i] == n { OccMono(len, n, i + 1, |len|); perm[pp] := i; pp := pp + 1; }
      }
    }
  }

  /** base[k] counts the symbols shorter than k. */
  method CountShorter(base: array<int>, length: array<int>, alphaSize: nat, ghost len: seq<nat>)
    requires base != length && base.Length == MAX_CODE_LEN && alphaSize <= length.Length && length[..alphaSize] == len
    requires Lengths(len, 0, LONGEST)
    modifies base
    ensures forall k {:trigger base[k]} :: 0 <= k < MAX_CODE_LEN ==> base[k] == Less(len, k, |len|)
  {
    assert forall i {:trigger length[i]} :: 0 <= i < alphaSize ==> length[i] == length[..alphaSize][i] == len[i];
    for i := 0 to MAX_CODE_LEN
      invariant forall k {:trigger base[k]} :: 0 <= k < i ==> base[k] == 0
    {
      base[i] := 0;
    }
    for i := 0 to alphaSize
      invariant base[0] == 0
      invariant forall k {:trigger base[k]} :: 1 <= k < MAX_CODE_LEN ==> base[k] == Occ(len, k - 1, i)
    {
      base[length[i] + 1] := base[length[i] + 1] + 1;
    }
    for i := 1 to MAX_CODE_LEN
      invariant forall k {:trigger base[k]} :: 0 <= k < i ==> base[k] == Less(len, k, |len|)
      invariant forall k {:trigger base[k]} :: i <= k < MAX_CODE_LEN ==> base[k] == Occ(len, k - 1, |len|)
    {
      base[i] := base[i] + base[i - 1];
    }
  }

  /** BZ2_hbCreateDecodeTables. */
  method CreateDecodeTables(limit: array<int>, base: array<int>, perm: array<int>, length: array<int>, minLen: nat,
      maxLen: nat, alphaSize: nat, ghost len: seq<nat>)
    requires limit != base && limit != perm && limit != length && base != perm && base != length && perm != length
    requires limit.Length == base.Length == MAX_CODE_LEN && perm.Length == MAX_ALPHA
    requires alphaSize <= length.Length && length[..alphaSize] == len && Lengths(len, minLen, maxLen)
    modifies limit, base, perm
    ensures Tables(len, minLen, maxLen, limit[..], base[..], perm[..])
  {
    FillPerm(perm, length, minLen, maxLen, alphaSize, len);
    CountShorter(base, length, alphaSize, len);
    for i := 0 to MAX_CODE_LEN
      modifies limit
    {
      limit[i] := 0;
    }
    var vec := 0;
    FirstZero(len, minLen, maxLen, minLen);
    for i := minLen to maxLen + 1
      modifies limit
      invariant vec == First(len, i)
      invariant forall n {:trigger limit[n]} :: minLen <= n < i ==> limit[n] == First(len, n) + Occ(len, n, |len|) - 1
    {
      assert base[i + 1] - base[i] == Occ(len, i, |len|);
      vec := vec + (base[i + 1] - base[i]);
      limit[i] := vec - 1;
      vec := vec * 2;
    }
    for i := minLen + 1 to maxLen + 1
      modifies base
      invariant forall n {:trigger base[n]} :: minLen <= n <= maxLen ==>
        base[n] == if n < i then First(len, n) - Less(len, n, |len|) else Less(len, n, |len|)
    {
      assert limit[i - 1] == First(len, i - 1) + Occ(len, i - 1, |len|) - 1;
      base[i] := (limit[i - 1] + 1) * 2 - base[i];
    }
  }
}
