/** The writing half of compress.c: the loops of BZ2_compressBlock and sendMTFValues that put a block's
    header, tables and codes into the bit stream. */
module SendBlock {
  import opened Sequences
  import opened Mtf
  import opened MtfTable
  import opened Bits
  import opened BitIo
  import opened Canonical
  import opened DecodeMachine
  import opened BlockFormat
  import opened SymbolFormat

  /** s has been written. Kept closed: the loops below only append to it. */
  ghost predicate Wrote(w: Writer, s: Bitstring)
    reads w
  {
    forall u {:trigger Shown(s, u)} :: Shown(s, u) ==> w.Valid() && w.Written() == s
  }

  ghost predicate Shown(s: Bitstring, u: int) { true }

  lemma WroteOpens(w: Writer, s: Bitstring)
    ensures Wrote(w, s) <==> w.Valid() && w.Written() == s
  {
    assert Shown(s, 0);
  }

  /** bsW. */
  method Put(w: Writer, n: nat, v: nat, ghost s: Bitstring)
    requires Wrote(w, s) && n <= 25 && v < Pow2(n)
    modifies w
    ensures Wrote(w, s + ToBits(v, n))
  {
    WroteOpens(w, s);
    w.Put(n, v);
    WroteOpens(w, s + ToBits(v, n));
  }

  method PutBit(w: Writer, b: bool, ghost s: Bitstring)
    requires Wrote(w, s)
    modifies w
    ensures Wrote(w, s + Bit01(b))
  {
    assert Pow2(1) == 2;
    assert ToBits(0, 1) == [0] && ToBits(1, 1) == [1] by { assert ToBits(0, 0) == []; }
    if b { Put(w, 1, 1, s); } else { Put(w, 1, 0, s); }
  }

  /** bsPutUChar six times. */
  method PutMagic(w: Writer, ghost s: Bitstring)
    requires Wrote(w, s)
    modifies w
    ensures Wrote(w, s + BlockMagics(1))
  {
    PowWord();
    ghost var cur := s;
    for k := 1 to 7
      invariant Wrote(w, cur) && cur + BlockMagics(k) == s + BlockMagics(1)
    {
      Assoc(cur, ToBits(BlockMagic(k), 8), BlockMagics(k + 1));
      Put(w, 8, BlockMagic(k), cur);
      cur := cur + ToBits(BlockMagic(k), 8);
    }
    assert cur + [] == cur;
  }

  /** bsPutUInt32, on the four bytes of the CRC. */
  method PutCrc(w: Writer, c: seq<int>, ghost s: Bitstring)
    requires Wrote(w, s) && |c| == 4 && AreBytes(c)
    modifies w
    ensures Wrote(w, s + CrcBits(c))
  {
    PowWord();
    ghost var s1 := s + ToBits(c[0], 8);
    ghost var s2 := s1 + ToBits(c[1], 8);
    ghost var s3 := s2 + ToBits(c[2], 8);
    Put(w, 8, c[0], s);
    Put(w, 8, c[1], s1);
    Put(w, 8, c[2], s2);
    Put(w, 8, c[3], s3);
    Four(s, ToBits(c[0], 8), ToBits(c[1], 8), ToBits(c[2], 8), ToBits(c[3], 8));
  }

  lemma Four(w: Bitstring, a: Bitstring, b: Bitstring, c: Bitstring, d: Bitstring)
    ensures w + a + b + c + d == w + (a + (b + (c + d)))
  {
  }

  // ---- the mapping table ----

  method RowInUse(inUse: array<bool>, i: nat) returns (r: bool)
    requires inUse.Length == 256 && i < 16
    ensures r == RowUsed(inUse[..], i)
  {
    ghost var u := inUse[..];
    r := false;
    for j := 0 to 16
      invariant r <==> exists x :: 16 * i <= x < 16 * i + j && u[x]
    {
      assert inUse[i * 16 + j] == u[16 * i + j];
      if inUse[i * 16 + j] { r := true; }
    }
  }

  method PutFlags(w: Writer, inUse: array<bool>, ghost s: Bitstring)
    requires Wrote(w, s) && inUse.Length == 256
    modifies w
    ensures Wrote(w, s + RowFlags(inUse[..], 0))
  {
    ghost var u, cur := inUse[..], s;
    for i := 0 to 16
      invariant Wrote(w, cur) && cur + RowFlags(u, i) == s + RowFlags(u, 0)
    {
      var r := RowInUse(inUse, i);
      Assoc(cur, Bit01(r), RowFlags(u, i + 1));
      PutBit(w, r, cur);
      cur := cur + Bit01(r);
    }
    assert cur + [] == cur;
  }

  method PutRow(w: Writer, inUse: array<bool>, i: nat, ghost s: Bitstring)
    requires Wrote(w, s) && inUse.Length == 256 && i < 16
    modifies w
    ensures Wrote(w, s + RowBits(inUse[..], i, 0))
  {
    ghost var u, cur := inUse[..], s;
    for j := 0 to 16
      invariant Wrote(w, cur) && cur + RowBits(u, i, j) == s + RowBits(u, i, 0)
    {
      var r := inUse[i * 16 + j];
      assert r == u[16 * i + j];
      Assoc(cur, Bit01(r), RowBits(u, i, j + 1));
      PutBit(w, r, cur);
      cur := cur + Bit01(r);
    }
    assert cur + [] == cur;
  }

  method PutRows(w: Writer, inUse: array<bool>, ghost s: Bitstring)
    requires Wrote(w, s) && inUse.Length == 256
    modifies w
    ensures Wrote(w, s + MapBits(inUse[..], 0))
  {
    ghost var u, cur := inUse[..], s;
    for i := 0 to 16
      invariant Wrote(w, cur) && cur + MapBits(u, i) == s + MapBits(u, 0)
    {
      var r := RowInUse(inUse, i);
      if r {
        Assoc(cur, RowBits(u, i, 0), MapBits(u, i + 1));
        PutRow(w, inUse, i, cur);
        cur := cur + RowBits(u, i, 0);
      } else {
        assert [] + MapBits(u, i + 1) == MapBits(u, i + 1);
      }
    }
    assert cur + [] == cur;
  }

  // ---- the selectors ----

  /** The move-to-front coding of one selector: finds v in pos, moving what is before it up. */
  method MoveSelector(pos: array<int>, n: nat, v: int) returns (j: nat)
    requires n <= pos.Length && v in pos[..n]
    modifies pos
    ensures j == Find(old(pos[..n]), v) && j < n && pos[..n] == MoveToFront(old(pos[..n]), j)
  {
    ghost var p := pos[..n];
    ghost var at := Find(p, v);
    j := 0;
    var tmp := pos[0];
    while v != tmp
      invariant j <= at < n && tmp == p[j]
      invariant forall k {:trigger pos[k]} :: 0 <= k < n ==> pos[k] == if 1 <= k <= j then p[k - 1] else p[k]
      decreases n - j
    {
      j := j + 1;
      var tmp2 := tmp;
      tmp := pos[j];
      pos[j] := tmp2;
    }
    assert j == at;
    pos[0] := tmp;
    assert pos[..n] == MoveToFront(p, j);
  }

  method PutUnary(w: Writer, n: nat, ghost s: Bitstring)
    requires Wrote(w, s)
    modifies w
    ensures Wrote(w, s + Unary(n))
  {
    ghost var cur := s;
    for j := 0 to n
      invariant Wrote(w, cur) && cur + Unary(n - j) == s + Unary(n)
    {
      Assoc(cur, [1], Unary(n - j - 1));
      PutBit(w, true, cur);
      cur := cur + [1];
    }
    PutBit(w, false, cur);
  }

  /** Codes all selectors. */
  method CodeSelectors(sel: seq<int>, nGroups: nat) returns (mtf: seq<int>)
    requires nGroups <= N_GROUPS && forall g {:trigger sel[g]} :: 0 <= g < |sel| ==> sel[g] in Iota(nGroups)
    ensures mtf == SelectorMtf(sel, Iota(nGroups))
  {
    var pos := new int[N_GROUPS](i => i);
    assert pos[..nGroups] == Iota(nGroups);
    mtf := [];
    assert sel[0..] == sel;
    for i := 0 to |sel|
      invariant AllIn(sel[i..], pos[..nGroups])
      invariant mtf + SelectorMtf(sel[i..], pos[..nGroups]) == SelectorMtf(sel, Iota(nGroups))
    {
      ghost var p, rest := pos[..nGroups], sel[i..];
      assert rest[0] == sel[i] && rest[1..] == sel[i + 1..];
      CodeOne(rest, p);
      var j := MoveSelector(pos, nGroups, sel[i]);
      Shift(mtf, j, SelectorMtf(sel[i + 1..], pos[..nGroups]));
      mtf := mtf + [j];
    }
    assert mtf + [] == mtf;
  }

  ghost predicate AllIn(sel: seq<int>, pos: seq<int>) { forall g {:trigger sel[g]} :: 0 <= g < |sel| ==> sel[g] in pos }

  lemma Shift(a: seq<int>, j: int, b: seq<int>)
    ensures (a + [j]) + b == a + ([j] + b)
  {
  }

  lemma CodeOne(sel: seq<int>, pos: seq<int>)
    requires sel != [] && AllIn(sel, pos)
    ensures Find(pos, sel[0]) < |pos| && AllIn(sel[1..], MoveToFront(pos, Find(pos, sel[0])))
    ensures SelectorMtf(sel, pos) == [Find(pos, sel[0])] + SelectorMtf(sel[1..], MoveToFront(pos, Find(pos, sel[0])))
  {
    assert sel[0] in pos;
    InAfterMove(sel[1..], pos, Find(pos, sel[0]));
  }

  lemma InAfterMove(sel: seq<int>, pos: seq<int>, j: nat)
    requires AllIn(sel, pos) && j < |pos|
    ensures AllIn(sel, MoveToFront(pos, j))
  {
    MoveKeeps(pos, j);
  }

  method PutSelectors(w: Writer, mtf: seq<int>, ghost s: Bitstring)
    requires Wrote(w, s) && forall k {:trigger mtf[k]} :: 0 <= k < |mtf| ==> mtf[k] >= 0
    modifies w
    ensures Wrote(w, s + UnaryAll(mtf))
  {
    ghost var cur := s;
    assert mtf[0..] == mtf;
    for i := 0 to |mtf|
      invariant Wrote(w, cur) && cur + UnaryAll(mtf[i..]) == s + UnaryAll(mtf)
    {
      assert mtf[i..][1..] == mtf[i + 1..] && mtf[i..][0] == mtf[i];
      Assoc(cur, Unary(mtf[i]), UnaryAll(mtf[i + 1..]));
      PutUnary(w, mtf[i], cur);
      cur := cur + Unary(mtf[i]);
    }
    assert cur + [] == cur;
  }

  // ---- the code lengths ----

  method PutDelta(w: Writer, curr0: nat, next: nat, ghost s: Bitstring)
    requires Wrote(w, s)
    modifies w
    ensures Wrote(w, s + Delta(curr0, next))
  {
    ghost var cur := s;
    var curr := curr0;
    TwoBits();
    while curr < next
      invariant Wrote(w, cur) && cur + Delta(curr, next) == s + Delta(curr0, next)
      decreases next - curr
    {
      Assoc(cur, [1, 0], Delta(curr + 1, next));
      Put(w, 2, 2, cur);
      cur, curr := cur + [1, 0], curr + 1;
    }
    while curr > next
      invariant curr >= next && Wrote(w, cur) && cur + Delta(curr, next) == s + Delta(curr0, next)
    {
      Assoc(cur, [1, 1], Delta(curr - 1, next));
      Put(w, 2, 3, cur);
      cur, curr := cur + [1, 1], curr - 1;
    }
    PutBit(w, false, cur);
  }

  lemma TwoBits()
    ensures ToBits(2, 2) == [1, 0] && ToBits(3, 2) == [1, 1] && Pow2(2) == 4
  {
    assert ToBits(1, 1) == [1] by { assert ToBits(0, 0) == []; }
  }

  method PutTable(w: Writer, len: seq<nat>, ghost s: Bitstring)
    requires Wrote(w, s) && len != [] && len[0] <= LONGEST
    modifies w
    ensures Wrote(w, s + (ToBits(len[0], 5) + Deltas(len[0], len)))
  {
    assert Pow2(5) == 32;
    var curr := len[0];
    Put(w, 5, curr, s);
    ghost var start := s + ToBits(curr, 5);
    PutDeltas(w, len, start);
    Assoc(s, ToBits(len[0], 5), Deltas(len[0], len));
  }

  method PutDeltas(w: Writer, len: seq<nat>, ghost s: Bitstring)
    requires Wrote(w, s) && len != []
    modifies w
    ensures Wrote(w, s + Deltas(len[0], len))
  {
    ghost var cur := s;
    var curr := len[0];
    assert len[0..] == len;
    for i := 0 to |len|
      invariant Wrote(w, cur) && cur + Deltas(curr, len[i..]) == s + Deltas(len[0], len)
    {
      DeltasStep(curr, len, i, cur);
      PutDelta(w, curr, len[i], cur);
      cur, curr := cur + Delta(curr, len[i]), len[i];
    }
    assert cur + [] == cur;
  }

  lemma DeltasStep(curr: nat, len: seq<nat>, i: nat, s: Bitstring)
    requires i < |len|
    ensures s + Deltas(curr, len[i..]) == s + Delta(curr, len[i]) + Deltas(len[i], len[i + 1..])
  {
    assert len[i..][1..] == len[i + 1..] && len[i..][0] == len[i];
    Assoc(s, Delta(curr, len[i]), Deltas(len[i], len[i + 1..]));
  }

  method PutTables(w: Writer, lens: seq<seq<nat>>, ghost s: Bitstring)
    requires Wrote(w, s) && forall t {:trigger lens[t]} :: 0 <= t < |lens| ==> lens[t] != [] && lens[t][0] <= LONGEST
    modifies w
    ensures Wrote(w, s + LengthBits(lens))
  {
    ghost var cur := s;
    assert lens[0..] == lens;
    for t := 0 to |lens|
      invariant Wrote(w, cur) && cur + LengthBits(lens[t..]) == s + LengthBits(lens)
    {
      ghost var one := ToBits(lens[t][0], 5) + Deltas(lens[t][0], lens[t]);
      assert lens[t..][1..] == lens[t + 1..] && lens[t..][0] == lens[t];
      Assoc(cur, one, LengthBits(lens[t + 1..]));
      PutTable(w, lens[t], cur);
      cur := cur + one;
    }
    assert cur + [] == cur;
  }

  // ---- the symbols ----

  /** The codes of one group of at most fifty symbols, gs..ge-1, with the table it has selected. */
  method PutGroup(w: Writer, mtfv: array<int>, gs: nat, ge: nat, len: seq<nat>, code: seq<int>, ghost k: Coded,
      ghost s: Bitstring)
    requires Wrote(w, s) && GoodCoded(k) && gs <= ge <= |k.syms| <= mtfv.Length && ge - gs <= G_SIZE && gs % G_SIZE == 0
    requires forall x {:trigger k.syms[x]} :: 0 <= x < |k.syms| ==> mtfv[x] == k.syms[x]
    requires gs < ge ==> len == LenAt(k, gs)
    requires |code| == |len| && forall i {:trigger code[i]} :: 0 <= i < |len| ==> code[i] == Code(len, i)
    modifies w
    ensures Wrote(w, s + GroupBits(k, gs, ge))
  {
    ghost var cur := s;
    for x := gs to ge
      invariant Wrote(w, cur) && cur + GroupBits(k, x, ge) == s + GroupBits(k, gs, ge)
    {
      SameGroup(k, gs, x);
      SymIn(k, x);
      var sym := mtfv[x];
      assert sym == k.syms[x];
      CodeFits(len, LONGEST, sym);
      Assoc(cur, CodeBits(len, sym), GroupBits(k, x + 1, ge));
      Put(w, len[sym], code[sym], cur);
      cur := cur + CodeBits(len, sym);
    }
    assert cur + [] == cur;
  }

  /** The codes of symbols x..ge-1. */
  ghost function GroupBits(k: Coded, x: nat, ge: nat): Bitstring
    requires GoodCoded(k) && x <= ge <= |k.syms|
    decreases ge - x
  {
    if x == ge then []
    else
      SymIn(k, x);
      CodeBits(LenAt(k, x), k.syms[x]) + GroupBits(k, x + 1, ge)
  }

  lemma SameGroup(k: Coded, gs: nat, x: nat)
    requires GoodCoded(k) && gs % G_SIZE == 0 && gs <= x < gs + G_SIZE && x < |k.syms|
    ensures LenAt(k, x) == LenAt(k, gs)
  {
    SymIn(k, x);
    SymIn(k, gs);
    assert x / G_SIZE == gs / G_SIZE;
  }

  /** The bits from symbol x on, up to symbol ge and from there. Kept closed where it is only passed on. */
  ghost predicate Splits(k: Coded, x: nat, ge: nat)
    requires GoodCoded(k) && x <= ge <= |k.syms|
  {
    forall u {:trigger Seen(k, u)} :: Seen(k, u) ==> SplitsNow(k, x, ge, u)
  }

  ghost predicate SplitsNow(k: Coded, x: nat, ge: nat, u: int)
    requires GoodCoded(k) && x <= ge <= |k.syms|
  {
    SymBits(k.lens, k.sel, k.syms, x) == GroupBits(k, x, ge) + SymBits(k.lens, k.sel, k.syms, ge)
  }

  lemma SplitsOpen(k: Coded, x: nat, ge: nat)
    requires GoodCoded(k) && x <= ge <= |k.syms|
    ensures Splits(k, x, ge) <==> SplitsNow(k, x, ge, 0)
  {
    assert Seen(k, 0);
    if SplitsNow(k, x, ge, 0) {
      forall u {:trigger Seen(k, u)} | Seen(k, u) ensures SplitsNow(k, x, ge, u) { assert SplitsNow(k, x, ge, 0); }
    }
  }

  ghost predicate Seen(k: Coded, u: int) { true }

  lemma GroupStep(k: Coded, x: nat, ge: nat)
    requires GoodCoded(k) && x < ge <= |k.syms| && Splits(k, x + 1, ge)
    ensures Splits(k, x, ge)
  {
    SplitsOpen(k, x + 1, ge);
    SplitsOpen(k, x, ge);
    SymStep(k, x);
    var a, g, t := CodeBits(LenAt(k, x), k.syms[x]), GroupBits(k, x + 1, ge), SymBits(k.lens, k.sel, k.syms, ge);
    assert GroupBits(k, x, ge) == a + g;
    Assoc(a, g, t);
  }

  lemma {:induction false} GroupSplits(k: Coded, x: nat, ge: nat)
    requires GoodCoded(k) && x <= ge <= |k.syms|
    ensures Splits(k, x, ge)
    decreases ge - x
  {
    if x < ge {
      GroupSplits(k, x + 1, ge);
      GroupStep(k, x, ge);
    } else {
      GroupNone(k, ge);
    }
  }

  lemma GroupThen(k: Coded, x: nat, ge: nat)
    requires GoodCoded(k) && x <= ge <= |k.syms|
    ensures SymBits(k.lens, k.sel, k.syms, x) == GroupBits(k, x, ge) + SymBits(k.lens, k.sel, k.syms, ge)
  {
    GroupSplits(k, x, ge);
    SplitsOpen(k, x, ge);
  }

  lemma GroupNone(k: Coded, ge: nat)
    requires GoodCoded(k) && ge <= |k.syms|
    ensures Splits(k, ge, ge)
  {
    SplitsOpen(k, ge, ge);
    var t := SymBits(k.lens, k.sel, k.syms, ge);
    assert GroupBits(k, ge, ge) == [] && [] + t == t;
  }

  /** The block data proper: group after group, each with its selected table. */
  method PutSymbols(w: Writer, mtfv: array<int>, nMTF: nat, lens: seq<seq<nat>>, codes: seq<seq<int>>,
      selector: seq<int>, ghost k: Coded, ghost s: Bitstring)
    requires Wrote(w, s) && GoodCoded(k) && k.lens == lens && k.sel == selector && nMTF == |k.syms| <= mtfv.Length
    requires forall x {:trigger k.syms[x]} :: 0 <= x < |k.syms| ==> mtfv[x] == k.syms[x]
    requires |codes| == |lens| && forall t {:trigger codes[t]} :: 0 <= t < |lens| ==>
      |codes[t]| == |lens[t]| && forall i {:trigger codes[t][i]} :: 0 <= i < |lens[t]| ==>
        codes[t][i] == Code(lens[t], i)
    modifies w
    ensures Wrote(w, s + SymBits(lens, selector, k.syms, 0))
  {
    ghost var cur := s;
    var selCtr, gs := 0, 0;
    while gs < nMTF
      invariant 0 <= gs <= nMTF && (gs < nMTF ==> gs == G_SIZE * selCtr) && selCtr >= 0
      invariant Wrote(w, cur) && cur + SymBits(lens, selector, k.syms, gs) == s + SymBits(lens, selector, k.syms, 0)
    {
      var ge := gs + G_SIZE;
      if ge >= nMTF { ge := nMTF; }
      SymIn(k, gs);
      assert gs / G_SIZE == selCtr;
      var t := selector[selCtr];
      PutGroup(w, mtfv, gs, ge, lens[t], codes[t], k, cur);
      GroupThen(k, gs, ge);
      Assoc(cur, GroupBits(k, gs, ge), SymBits(lens, selector, k.syms, ge));
      cur := cur + GroupBits(k, gs, ge);
      gs := ge;
      selCtr := selCtr + 1;
    }
    assert cur + [] == cur;
  }
}
