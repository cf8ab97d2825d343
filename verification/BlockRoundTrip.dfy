/** One block through the whole codec: sorted, transformed, move-to-front coded and Huffman coded on one
    side, and read, decoded and unsorted on the other. */
module BlockRoundTrip {
  import opened Rotations
  import opened Bwt
  import opened Mtf
  import opened MtfEncode
  import opened Bits
  import opened BitIo
  import opened Canonical
  import opened DecodeMachine
  import opened BlockFormat
  import opened SymbolFormat

  // ---- the bytes in use ----

  /** seqToUnseq. */
  function UsedBytes(inUse: seq<bool>, i: nat): (r: seq<int>)
    requires i <= |inUse|
    ensures |r| == Used(inUse, i) && forall k {:trigger r[k]} :: 0 <= k < |r| ==> 0 <= r[k] < i
  {
    if i == 0 then [] else UsedBytes(inUse, i - 1) + if inUse[i - 1] then [i - 1] else []
  }

  lemma {:induction false} UsedAt(inUse: seq<bool>, i: nat, x: nat)
    requires x < i <= |inUse| && inUse[x]
    ensures Used(inUse, x) < Used(inUse, i) && UsedBytes(inUse, i)[Used(inUse, x)] == x
    decreases i
  {
    if x < i - 1 { UsedAt(inUse, i - 1, x); }
  }

  /** The received column as bytes. */
  function ColumnBytes(inUse: seq<bool>, out: seq<int>): (r: seq<Byte>)
    requires |inUse| == 256
    ensures |r| == |out|
  {
    var u := UsedBytes(inUse, 256);
    seq<Byte>(|out|, x requires 0 <= x < |out| => if 0 <= out[x] < |u| then u[out[x]] else 0)
  }

  /** The bytes of l numbered among those in use. */
  ghost function Numbered(inUse: seq<bool>, l: seq<Byte>): (c: seq<int>)
    requires |inUse| == 256
    ensures |c| == |l| && forall x {:trigger c[x]} :: 0 <= x < |l| ==> c[x] == Used(inUse, l[x])
  {
    seq(|l|, x requires 0 <= x < |l| => Used(inUse, l[x]))
  }

  ghost predicate AllUsed(inUse: seq<bool>, l: seq<Byte>) {
    |inUse| == 256 && forall x {:trigger l[x]} :: 0 <= x < |l| ==> inUse[l[x]]
  }

  lemma NumberedColumn(inUse: seq<bool>, l: seq<Byte>)
    requires AllUsed(inUse, l)
    ensures Column(Numbered(inUse, l), Used(inUse, 256)) && ColumnBytes(inUse, Numbered(inUse, l)) == l
  {
    var c := Numbered(inUse, l);
    forall x {:trigger c[x]} | 0 <= x < |c| ensures 0 <= c[x] < Used(inUse, 256) && ColumnBytes(inUse, c)[x] == l[x] {
      assert inUse[l[x]];
      UsedAt(inUse, 256, l[x]);
    }
  }

  // ---- the symbols of a column ----

  lemma EncodeEnds(c: seq<int>, m: nat)
    requires Column(c, m) && 0 < m
    ensures Symbols(Encode(c, m), m)
    ensures var r := Encode(c, m); forall x {:trigger r[x]} :: 0 <= x < |r| - 1 ==> r[x] != m + 1
  {
    var e, r := After(c, m, |c|), Encode(c, m);
    forall x {:trigger r[x]} | 0 <= x < |r| - 1 ensures r[x] != m + 1 {
      if x < |e.out| { assert r[x] == e.out[x]; } else { assert r[x] == Run(e.z)[x - |e.out|]; }
    }
  }

  /** How the compressor may code a column: any lengths that make a code, any choice of tables. */
  ghost predicate Choice(lens: seq<seq<nat>>, sel: seq<int>, c: seq<int>, m: nat) {
    && 2 <= |lens| <= N_GROUPS && 1 <= |sel| <= MAX_SELECTORS && 0 < m <= 256 && Column(c, m)
    && |Encode(c, m)| <= G_SIZE * |sel|
    && (forall t {:trigger lens[t]} :: 0 <= t < |lens| ==> GoodLengths(lens[t], m + 2) && Kraft(lens[t], LONGEST))
    && (forall g {:trigger sel[g]} :: 0 <= g < |sel| ==> 0 <= sel[g] < |lens|)
  }

  lemma ChoiceCoded(lens: seq<seq<nat>>, sel: seq<int>, c: seq<int>, m: nat)
    requires Choice(lens, sel, c, m)
    ensures GoodCoded(Coded(lens, sel, Encode(c, m), m))
  {
    EncodeEnds(c, m);
  }

  lemma SelectorsIn(lens: seq<seq<nat>>, sel: seq<int>, c: seq<int>, m: nat)
    requires Choice(lens, sel, c, m)
    ensures forall g {:trigger sel[g]} :: 0 <= g < |sel| ==> sel[g] in Iota(|lens|)
  {
    forall g {:trigger sel[g]} | 0 <= g < |sel|
      ensures sel[g] in Iota(|lens|)
    {
      assert Iota(|lens|)[sel[g]] == sel[g];
    }
  }

  // ---- the block ----

  /** All bits of a block, and then rest. */
  ghost function BlockThen(crc: seq<int>, origPtr: nat, inUse: seq<bool>, c: seq<int>, lens: seq<seq<nat>>,
      sel: seq<int>, rest: Bitstring): Bitstring
    requires |crc| == 4 && AreBytes(crc) && |inUse| == 256 && Choice(lens, sel, c, Used(inUse, 256))
  {
    SelectorsIn(lens, sel, c, Used(inUse, 256));
    HeadThen(crc, origPtr, inUse, SelectorMtf(sel, Iota(|lens|)), lens,
      SymBits(lens, sel, Encode(c, Used(inUse, 256)), 0) + rest)
  }

  lemma FirstWill(c: seq<int>, m: nat, limit: nat, y: Syms)
    requires Column(c, m) && 0 < m && |c| <= limit <= 900000 && y.l == Iota(256) && y.out == []
    ensures Will(y, FirstSym, Encode(c, m)[0..], m, limit, c)
  {
    EncodeEnds(c, m);
    DecodeInvertsEncode(c, m, limit);
    assert Encode(c, m)[0..] == Encode(c, m);
  }

  /** The machine reads the bits of a block, and no others, and has the column again. */
  lemma BlockReads(d: D, crc: seq<int>, origPtr: nat, inUse: seq<bool>, c: seq<int>, lens: seq<seq<nat>>, sel: seq<int>,
      rest: Bitstring)
      returns (e: D)
    requires d.at == BlkHdr(1) && 1 <= d.h.size <= 9 && |crc| == 4 && AreBytes(crc) && |inUse| == 256
    requires Choice(lens, sel, c, Used(inUse, 256)) && origPtr < |c| <= Limit(d)
    ensures Go(d, BlockThen(crc, origPtr, inUse, c, lens, sel, rest)) == Returned(Ok, e, rest)
    ensures e.at == Output && e.y.out == c && e.inUse == inUse
    ensures e.h == d.h.(blockCRC := CrcValue(crc), randomised := 0, origPtr := origPtr)
  {
    var m := Used(inUse, 256);
    SelectorsIn(lens, sel, c, m);
    ChoiceCoded(lens, sel, c, m);
    var k, mtf := Coded(lens, sel, Encode(c, m), m), SelectorMtf(sel, Iota(|lens|));
    SelectorsInvert(sel, Iota(|lens|));
    var more := SymBits(lens, sel, k.syms, 0) + rest;
    var f := ReadHead(d, crc, origPtr, inUse, mtf, lens, more);
    var g := f.(y := f.y.(groups := GroupsOf(lens), groupNo := -1, groupPos := 0, out := [], l := Iota(256)));
    FirstWill(c, m, Limit(d), g.y);
    e := ReadSymbols(k, g, FirstSym, 0, Limit(d), c, rest);
    e := Concluded(d, BlockThen(crc, origPtr, inUse, c, lens, sel, rest), f, more, e, rest);
  }

  lemma Concluded(d: D, bits: Bitstring, f: D, more: Bitstring, g: D, rest: Bitstring) returns (e: D)
    requires Comes(Goto(d), bits, TablesDone(f), more) && Comes(TablesDone(f), more, BlockDone(g), rest)
    requires 0 <= g.h.origPtr < |g.y.out|
    ensures e == g.(at := Output) && Go(d, bits) == Returned(Ok, e, rest)
  {
    e := g.(at := Output);
    Then(Goto(d), bits, TablesDone(f), more, BlockDone(g), rest);
    ComesOpens(Goto(d), bits, BlockDone(g), rest);
  }

  /** What the decoder makes of a block it has read. */
  ghost function Decoded(e: D): seq<Byte>
    requires |e.inUse| == 256 && 0 <= e.h.origPtr < |e.y.out|
  {
    Unsort(ColumnBytes(e.inUse, e.y.out), e.h.origPtr)
  }

  /** Whatever order sorts the block and whatever tables code it, the block comes back. */
  lemma BlockComesBack(d: D, b: Block, order: seq<int>, origPtr: nat, inUse: seq<bool>, crc: seq<int>,
      lens: seq<seq<nat>>, sel: seq<int>, rest: Bitstring) returns (e: D)
    requires d.at == BlkHdr(1) && 1 <= d.h.size <= 9 && |b| <= Limit(d) && |crc| == 4 && AreBytes(crc)
    requires SortsRotations(b, order) && origPtr < |b| && order[origPtr] == 0 && AllUsed(inUse, LastColumn(b, order))
    requires Choice(lens, sel, Numbered(inUse, LastColumn(b, order)), Used(inUse, 256))
    ensures Go(d, BlockThen(crc, origPtr, inUse, Numbered(inUse, LastColumn(b, order)), lens, sel, rest)) ==
      Returned(Ok, e, rest)
    ensures e.at == Output && |e.inUse| == 256 && 0 <= e.h.origPtr < |e.y.out| && Decoded(e) == b
    ensures e.h == d.h.(blockCRC := CrcValue(crc), randomised := 0, origPtr := origPtr)
  {
    var l := LastColumn(b, order);
    NumberedColumn(inUse, l);
    e := BlockReads(d, crc, origPtr, inUse, Numbered(inUse, l), lens, sel, rest);
    UnsortInvertsSort(b, order, origPtr);
  }
}
