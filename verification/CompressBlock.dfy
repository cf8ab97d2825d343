/** BZ2_compressBlock on a block: all stages of the encoder in sequence, and the promise that the decoder
    gets the block back from exactly the bits written. */
module CompressBlock {
  import opened Sequences
  import opened Permutations
  import opened Rotations
  import opened Bwt
  import opened MtfTable
  import opened Mtf
  import opened MtfEncode
  import opened Bits
  import opened BitIo
  import C = Canonical
  import opened DecodeMachine
  import opened BlockFormat
  import opened SymbolFormat
  import opened BlockRoundTrip
  import opened SendBlock
  import opened CodingTables
  import opened MainCompare
  import Sorter = BlockSort

  // ---- writing the pieces in order ----

  /** The header as the pieces that are written one after the other. */
  lemma HeadPieces(s: Bitstring, crc: seq<int>, origPtr: nat, inUse: seq<bool>, mtf: seq<int>, lens: seq<seq<nat>>,
      rest: Bitstring)
    requires |crc| == 4 && AreBytes(crc) && |inUse| == 256
    requires forall k {:trigger mtf[k]} :: 0 <= k < |mtf| ==> mtf[k] >= 0
    requires forall t {:trigger lens[t]} :: 0 <= t < |lens| ==> lens[t] != []
    ensures s + BlockMagics(1) + CrcBits(crc) + [0] + ToBits(origPtr, 24) + RowFlags(inUse, 0) + MapBits(inUse, 0)
              + ToBits(|lens|, 3) + ToBits(|mtf|, 15) + UnaryAll(mtf) + LengthBits(lens) + rest
            == s + HeadThen(crc, origPtr, inUse, mtf, lens, rest)
  {
    var p1, p2, p3, p4, p5 := BlockMagics(1), CrcBits(crc), [0], ToBits(origPtr, 24), RowFlags(inUse, 0);
    var p6, p7, p8, p9, p10 := MapBits(inUse, 0), ToBits(|lens|, 3), ToBits(|mtf|, 15), UnaryAll(mtf), LengthBits(lens);
    var r9 := p9 + (p10 + rest);
    var r7 := p7 + (p8 + r9);
    var r5 := p5 + (p6 + r7);
    var r3 := p3 + (p4 + r5);
    Regroup2(s, p1, p2, r3);
    var s2 := s + p1 + p2;
    Regroup2(s2, p3, p4, r5);
    var s4 := s2 + p3 + p4;
    Regroup2(s4, p5, p6, r7);
    var s6 := s4 + p5 + p6;
    Regroup2(s6, p7, p8, r9);
    var s8 := s6 + p7 + p8;
    Regroup2(s8, p9, p10, rest);
  }

  lemma Regroup2(s: Bitstring, a: Bitstring, b: Bitstring, c: Bitstring)
    ensures s + (a + (b + c)) == s + a + b + c
  {
    Assoc(s, a, b + c);
    Assoc(s + a, b, c);
  }

  /** What follows a block may as well be written after it. */
  lemma HeadTail(crc: seq<int>, origPtr: nat, inUse: seq<bool>, mtf: seq<int>, lens: seq<seq<nat>>, x: Bitstring,
      rest: Bitstring)
    requires |crc| == 4 && AreBytes(crc) && |inUse| == 256
    requires forall k {:trigger mtf[k]} :: 0 <= k < |mtf| ==> mtf[k] >= 0
    requires forall t {:trigger lens[t]} :: 0 <= t < |lens| ==> lens[t] != []
    ensures HeadThen(crc, origPtr, inUse, mtf, lens, x) + rest == HeadThen(crc, origPtr, inUse, mtf, lens, x + rest)
  {
    HeadPieces([], crc, origPtr, inUse, mtf, lens, x);
    HeadPieces([], crc, origPtr, inUse, mtf, lens, x + rest);
    var head := [] + BlockMagics(1) + CrcBits(crc) + [0] + ToBits(origPtr, 24) + RowFlags(inUse, 0) + MapBits(inUse, 0)
              + ToBits(|lens|, 3) + ToBits(|mtf|, 15) + UnaryAll(mtf) + LengthBits(lens);
    Assoc(head, x, rest);
    Unit(HeadThen(crc, origPtr, inUse, mtf, lens, x));
    Unit(HeadThen(crc, origPtr, inUse, mtf, lens, x + rest));
  }

  lemma Unit(s: Bitstring)
    ensures [] + s == s && s + [] == s
  {
  }

  /** Writes everything before the symbols. */
  method PutHead(w: Writer, crc: seq<int>, origPtr: nat, inUse: array<bool>, mtf: seq<int>, lens: seq<seq<nat>>,
      ghost s: Bitstring)
      returns (ghost now: Bitstring)
    requires Wrote(w, s) && |crc| == 4 && AreBytes(crc) && inUse.Length == 256 && origPtr < 16777216
    requires |mtf| <= MAX_SELECTORS && |lens| <= N_GROUPS && forall k {:trigger mtf[k]} :: 0 <= k < |mtf| ==>
      mtf[k] >= 0
    requires forall t {:trigger lens[t]} :: 0 <= t < |lens| ==> lens[t] != [] && lens[t][0] <= C.LONGEST
    modifies w
    ensures Wrote(w, now)
    ensures forall rest {:trigger now + rest} :: now + rest == s + HeadThen(crc, origPtr, inUse[..], mtf, lens, rest)
  {
    Powers();
    PutMagic(w, s);
    now := s + BlockMagics(1);
    PutCrc(w, crc, now);
    now := now + CrcBits(crc);
    PutBit(w, false, now);
    now := now + [0];
    Put(w, 24, origPtr, now);
    now := now + ToBits(origPtr, 24);
    PutFlags(w, inUse, now);
    now := now + RowFlags(inUse[..], 0);
    PutRows(w, inUse, now);
    now := now + MapBits(inUse[..], 0);
    Put(w, 3, |lens|, now);
    now := now + ToBits(|lens|, 3);
    Put(w, 15, |mtf|, now);
    now := now + ToBits(|mtf|, 15);
    PutSelectors(w, mtf, now);
    now := now + UnaryAll(mtf);
    PutTables(w, lens, now);
    now := now + LengthBits(lens);
    forall rest {:trigger now + rest} ensures now + rest == s + HeadThen(crc, origPtr, inUse[..], mtf, lens, rest) {
      HeadPieces(s, crc, origPtr, inUse[..], mtf, lens, rest);
    }
  }

  lemma Powers()
    ensures Pow2(3) == 8 && Pow2(15) == 32768 && Pow2(24) == 16777216
  {
    PowWord();
    assert Pow2(3) == 8;
    assert Pow2(15) == 32768;
  }

  // ---- the column ----

  /** The sorted order as the 16-bit halves of the memory it shares with the values to come. */
  method Halves(ptr: array<int>, n: nat) returns (mem: array<int>)
    requires n == ptr.Length
    ensures fresh(mem) && mem.Length == 2 * n && Unread(mem[..], ptr[..], 0)
  {
    ghost var order := ptr[..];
    mem := new int[2 * n];
    for i := 0 to n
      modifies mem
      invariant forall k {:trigger order[k]} :: 0 <= k < i ==> mem[2 * k] + 65536 * mem[2 * k + 1] == order[k]
    {
      mem[2 * i] := ptr[i] % 65536;
      mem[2 * i + 1] := ptr[i] / 65536;
      assert ptr[i] == order[i];
    }
  }

  lemma ColumnUsed(b: Block, order: seq<int>, inUse: seq<bool>)
    requires IsPerm(order) && |order| == |b| && |inUse| == 256 && forall i {:trigger b[i]} :: 0 <= i < |b| ==>
      inUse[b[i]]
    ensures AllUsed(inUse, LastColumn(b, order))
  {
  }

  lemma ColumnSource(b: Block, block: seq<int>, order: seq<int>, inUse: seq<bool>, map_: seq<int>)
    requires IsPerm(order) && |order| == |b| <= |block| && block[..|b|] == b && |inUse| == |map_| == 256
    requires forall i {:trigger b[i]} :: 0 <= i < |b| ==> inUse[b[i]]
    requires forall i {:trigger map_[i]} :: 0 <= i < 256 && inUse[i] ==> map_[i] == Used(inUse, i)
    ensures Source(block, map_, order, Numbered(inUse, LastColumn(b, order)))
  {
    var n, c := |b|, Numbered(inUse, LastColumn(b, order));
    forall i {:trigger order[i]} | 0 <= i < n
      ensures var j := if order[i] == 0 then n - 1 else order[i] - 1; 0 <= block[j] < 256 && map_[block[j]] == c[i]
    {
      var j := if order[i] == 0 then n - 1 else order[i] - 1;
      assert block[j] == block[..n][j] == b[j];
      WrapOnce(order[i] + n - 1, n);
      assert LastColumn(b, order)[i] == b[j];
    }
  }

  /** bits make every decoder, whatever follows them, return the block with this CRC. */
  ghost predicate DecodesTo(bits: Bitstring, b: Block, size: int, crc: seq<int>)
    requires |crc| == 4
  {
    forall d: D, rest: Bitstring {:trigger Go(d, bits + rest)} :: d.at == BlkHdr(1) && d.h.size == size ==>
      var r := Go(d, bits + rest);
      && r.Returned? && r.ret == Ok && r.rest == rest && r.d.at == Output
      && r.d.h == d.h.(blockCRC := CrcValue(crc), randomised := 0, origPtr := r.d.h.origPtr)
      && |r.d.inUse| == 256 && 0 <= r.d.h.origPtr < |r.d.y.out| && Decoded(r.d) == b
  }

  lemma WrittenDecodes(bits: Bitstring, b: Block, order: seq<int>, origPtr: nat, inUse: seq<bool>, crc: seq<int>,
      lens: seq<seq<nat>>, sel: seq<int>, size: int)
    requires 1 <= size <= 9 && |b| <= 100000 * size && |crc| == 4 && AreBytes(crc)
    requires SortsRotations(b, order) && origPtr < |b| && order[origPtr] == 0 && AllUsed(inUse, LastColumn(b, order))
    requires Choice(lens, sel, Numbered(inUse, LastColumn(b, order)), Used(inUse, 256))
    requires bits == BlockThen(crc, origPtr, inUse, Numbered(inUse, LastColumn(b, order)), lens, sel, [])
    ensures DecodesTo(bits, b, size, crc)
  {
    var c, m := Numbered(inUse, LastColumn(b, order)), Used(inUse, 256);
    forall d: D, rest: Bitstring {:trigger Go(d, bits + rest)} | d.at == BlkHdr(1) && d.h.size == size
      ensures var r := Go(d, bits + rest);
        && r.Returned? && r.ret == Ok && r.rest == rest && r.d.at == Output
        && r.d.h == d.h.(blockCRC := CrcValue(crc), randomised := 0, origPtr := r.d.h.origPtr)
        && |r.d.inUse| == 256 && 0 <= r.d.h.origPtr < |r.d.y.out| && Decoded(r.d) == b
    {
      BlockTail(crc, origPtr, inUse, c, lens, sel, rest);
      var e := BlockComesBack(d, b, order, origPtr, inUse, crc, lens, sel, rest);
    }
  }

  lemma BlockTail(crc: seq<int>, origPtr: nat, inUse: seq<bool>, c: seq<int>, lens: seq<seq<nat>>, sel: seq<int>,
      rest: Bitstring)
    requires |crc| == 4 && AreBytes(crc) && |inUse| == 256 && Choice(lens, sel, c, Used(inUse, 256))
    ensures BlockThen(crc, origPtr, inUse, c, lens, sel, []) + rest ==
      BlockThen(crc, origPtr, inUse, c, lens, sel, rest)
  {
    SelectorsIn(lens, sel, c, Used(inUse, 256));
    var x := SymBits(lens, sel, Encode(c, Used(inUse, 256)), 0);
    Unit(x);
    HeadTail(crc, origPtr, inUse, SelectorMtf(sel, Iota(|lens|)), lens, x, rest);
  }

  /** The tables and the choice among them come from four passes, which begin with the symbols cut into two to six
      parts. */
  ghost predicate WellChosen(lens: seq<seq<nat>>, sel: seq<int>, syms: seq<int>, a: nat) {
    exists first, freq, cuts, stages, sels {:trigger Chosen(first, freq, cuts, stages, sels, lens, sel, syms, a)} ::
      Chosen(first, freq, cuts, stages, sels, lens, sel, syms, a)
  }

  ghost predicate Chosen(first: seq<seq<nat>>, freq: seq<int>, cuts: seq<int>, stages: seq<seq<seq<nat>>>,
      sels: seq<seq<int>>, lens: seq<seq<nat>>, sel: seq<int>, syms: seq<int>, a: nat) {
    && |freq| == a && (forall v {:trigger freq[v]} :: 0 <= v < a ==> freq[v] == multiset(syms)[v])
    && Parted(cuts, first, freq, |syms|, |first|, |first|)
    && Passes(stages, sels, syms, a) && |sels| == 4 && stages[0] == first && stages[4] == lens && sels[3] == sel
    && var n := |syms|;
       |first| == if n < 200 then 2 else if n < 600 then 3 else if n < 1200 then 4 else if n < 2400 then 5 else 6
  }

  /** The tables and the table of each group. */
  method ChooseTables(mem: array<int>, nMTF: nat, mtfFreq: array<int>, m: nat, ghost c: seq<int>)
      returns (lens: seq<seq<nat>>, sel: seq<int>)
    requires m > 0 && Column(c, m) && |c| <= 900000 && nMTF == |Encode(c, m)| <= mem.Length && mtfFreq.Length == 258
    requires Written(mem[..], mtfFreq[..], Encode(c, m))
    ensures Choice(lens, sel, c, m) && CodeTables(lens, m + 2) && WellChosen(lens, sel, Encode(c, m), m + 2)
  {
    EncodeEnds(c, m);
    ghost var memory, freq, syms := mem[..], mtfFreq[..], Encode(c, m);
    assert forall x {:trigger syms[x]} :: 0 <= x < nMTF ==> mem[x] == memory[x] == syms[x];
    ghost var cuts, stages, sels;
    var first;
    first, cuts := InitialTables(mtfFreq, nMTF, GroupCount(nMTF), m + 2);
    lens, sel, stages, sels := Refine(mem, nMTF, first, syms, m + 2);
    assert forall v {:trigger freq[..m + 2][v]} :: 0 <= v < m + 2 ==> freq[..m + 2][v] == freq[v];
    assert Chosen(first, freq[..m + 2], cuts, stages, sels, lens, sel, syms, m + 2);
  }

  /** sendMTFValues: tables, selectors and codes for the values in mem. */
  method SendValues(w: Writer, mem: array<int>, nMTF: nat, mtfFreq: array<int>, inUse: array<bool>, crc: seq<int>,
      origPtr: nat, m: nat, ghost c: seq<int>, ghost s: Bitstring)
      returns (ghost bits: Bitstring, ghost lens: seq<seq<nat>>, ghost sel: seq<int>)
    requires Wrote(w, s) && inUse.Length == 256 && m == Used(inUse[..], 256) > 0 && Column(c, m) && |c| <= 900000
    requires nMTF == |Encode(c, m)| && mtfFreq.Length == 258 && Written(mem[..], mtfFreq[..], Encode(c, m))
    requires |crc| == 4 && AreBytes(crc) && origPtr < 16777216
    modifies w
    ensures Choice(lens, sel, c, m) && WellChosen(lens, sel, Encode(c, m), m + 2) && Wrote(w, s + bits)
      && bits == BlockThen(crc, origPtr, inUse[..], c, lens, sel, [])
  {
    ghost var syms := Encode(c, m);
    ghost var memory := mem[..];
    assert forall x {:trigger syms[x]} :: 0 <= x < |syms| ==> mem[x] == memory[x] == syms[x];
    var a := m + 2;
    var tables, selector := ChooseTables(mem, nMTF, mtfFreq, m, c);
    lens, sel := tables, selector;
    SelectorsIn(lens, sel, c, m);
    ChoiceCoded(lens, sel, c, m);
    ghost var k := Coded(lens, sel, syms, m);
    var codes := AssignAll(tables, a);
    var mtf := CodeSelectors(selector, |tables|);
    TablesNonEmpty(lens, a);
    ghost var now := PutHead(w, crc, origPtr, inUse, mtf, tables, s);
    PutSymbols(w, mem, nMTF, tables, codes, selector, k, now);
    ghost var x := SymBits(lens, sel, syms, 0);
    Unit(x);
    assert now + x == s + HeadThen(crc, origPtr, inUse[..], mtf, lens, x);
    bits := HeadThen(crc, origPtr, inUse[..], mtf, lens, x);
  }

  lemma TablesNonEmpty(lens: seq<seq<nat>>, a: nat)
    requires CodeTables(lens, a) && a > 0
    ensures forall t {:trigger lens[t]} :: 0 <= t < |lens| ==> lens[t] != [] && lens[t][0] <= C.LONGEST
  {
  }

  /** The bits of a block, piece by piece: its rotations are sorted, the last column goes to the front coder, and the
      symbols are written with tables that have been chosen well. */
  ghost predicate LaidOut(bits: Bitstring, b: Block, order: seq<int>, origPtr: nat, inUse: seq<bool>, crc: seq<int>,
      lens: seq<seq<nat>>, sel: seq<int>) {
    && |crc| == 4 && AreBytes(crc) && |inUse| == 256 && SortsRotations(b, order) && origPtr < |b| && order[origPtr] == 0
    && AllUsed(inUse, LastColumn(b, order))
    && var c, m := Numbered(inUse, LastColumn(b, order)), Used(inUse, 256);
       && Choice(lens, sel, c, m) && WellChosen(lens, sel, Encode(c, m), m + 2)
       && bits == BlockThen(crc, origPtr, inUse, c, lens, sel, [])
  }

  ghost predicate LaysNow(bits: Bitstring, b: seq<int>, inUse: seq<bool>, crc: seq<int>, u: int) {
    b != [] && AreBytes(b)
      && exists order, origPtr: nat, lens, sel {:trigger LaidOut(bits, b, order, origPtr, inUse, crc, lens, sel)} ::
           LaidOut(bits, b, order, origPtr, inUse, crc, lens, sel)
  }

  /** The bits are those of the block b: no choice is left but among sorted orders and among equally good tables. Kept
      closed where it is only passed on. */
  ghost predicate Lays(bits: Bitstring, b: seq<int>, inUse: seq<bool>, crc: seq<int>) {
    forall u {:trigger Laid(bits, u)} :: Laid(bits, u) ==> LaysNow(bits, b, inUse, crc, u)
  }

  ghost predicate Laid(bits: Bitstring, u: int) { true }

  lemma LaysOpens(bits: Bitstring, b: seq<int>, inUse: seq<bool>, crc: seq<int>)
    ensures Lays(bits, b, inUse, crc) <==> LaysNow(bits, b, inUse, crc, 0)
  {
    assert Laid(bits, 0);
    if LaysNow(bits, b, inUse, crc, 0) {
      forall u {:trigger Laid(bits, u)} | Laid(bits, u) ensures LaysNow(bits, b, inUse, crc, u) {
        var order, origPtr: nat, lens, sel :| LaidOut(bits, b, order, origPtr, inUse, crc, lens, sel);
        assert LaidOut(bits, b, order, origPtr, inUse, crc, lens, sel);
      }
    }
  }

  /** BZ2_compressBlock for a block that is not empty. */
  method CompressBlock(w: Writer, ptr: array<int>, block: array<int>, quadrant: array<int>, ftab: array<int>,
      eclass: array<int>, bhtab: array<bool>, inUse: array<bool>, crc: seq<int>, n: nat, wfact: int, ghost size: int,
      ghost b: Block, ghost s: Bitstring)
      returns (ghost bits: Bitstring)
    requires ptr != block && ptr != quadrant && ptr != ftab && ftab != block && ftab != quadrant && block != quadrant
    requires eclass != ptr && eclass != block && n == |b| == ptr.Length == eclass.Length && inUse != bhtab
    requires n + N_OVERSHOOT <= block.Length && n + N_OVERSHOOT <= quadrant.Length && block[..n] == b
    requires ftab.Length == 65537 && n + 96 <= bhtab.Length && inUse.Length == 256
    requires 1 <= size <= 9 && n <= 100000 * size && |crc| == 4 && AreBytes(crc) && Wrote(w, s)
    requires forall i {:trigger b[i]} :: 0 <= i < |b| ==> inUse[b[i]]
    modifies w, ptr, block, quadrant, ftab, eclass, bhtab
    ensures Wrote(w, s + bits) && DecodesTo(bits, b, size, crc)
    ensures Lays(bits, b, inUse[..], crc)
  {
    var origPtr := Sorter.Sort(ptr, block, quadrant, ftab, eclass, bhtab, n, wfact, b);
    bits := WriteSorted(w, ptr, block, inUse, crc, n, origPtr, size, b, s);
  }

  /** What follows the sort. */
  method WriteSorted(w: Writer, ptr: array<int>, block: array<int>, inUse: array<bool>, crc: seq<int>, n: nat,
      origPtr: nat, ghost size: int, ghost b: Block, ghost s: Bitstring) returns (ghost bits: Bitstring)
    requires n == |b| == ptr.Length <= block.Length && block[..n] == b && inUse.Length == 256
    requires 1 <= size <= 9 && n <= 100000 * size && |crc| == 4 && AreBytes(crc) && Wrote(w, s)
    requires forall i {:trigger b[i]} :: 0 <= i < |b| ==> inUse[b[i]]
    requires SortsRotations(b, ptr[..]) && origPtr < n && ptr[origPtr] == 0
    modifies w
    ensures Wrote(w, s + bits) && DecodesTo(bits, b, size, crc) && Lays(bits, b, inUse[..], crc)
  {
    ghost var used, order := inUse[..], ptr[..];
    var mem, nMTF, mtfFreq, m, c := MakeValues(ptr, block, inUse, n, b);
    ghost var lens, sel;
    bits, lens, sel := SendValues(w, mem, nMTF, mtfFreq, inUse, crc, origPtr, m, c, s);
    BlockLaid(bits, b, order, origPtr, used, crc, lens, sel, size);
  }

  lemma BlockLaid(bits: Bitstring, b: Block, order: seq<int>, origPtr: nat, inUse: seq<bool>, crc: seq<int>,
      lens: seq<seq<nat>>, sel: seq<int>, size: int)
    requires LaidOut(bits, b, order, origPtr, inUse, crc, lens, sel) && 1 <= size <= 9 && |b| <= 100000 * size
    ensures Lays(bits, b, inUse, crc) && DecodesTo(bits, b, size, crc)
  {
    WrittenDecodes(bits, b, order, origPtr, inUse, crc, lens, sel, size);
    LaysOpens(bits, b, inUse, crc);
  }

  /** generateMTFValues on a sorted block. */
  method MakeValues(ptr: array<int>, block: array<int>, inUse: array<bool>, n: nat, ghost b: Block)
      returns (mem: array<int>, nMTF: nat, mtfFreq: array<int>, m: nat, ghost c: seq<int>)
    requires n == |b| == ptr.Length <= block.Length && block[..n] == b && SortsRotations(b, ptr[..])
      && inUse.Length == 256
    requires forall i {:trigger b[i]} :: 0 <= i < |b| ==> inUse[b[i]]
    ensures AllUsed(inUse[..], LastColumn(b, ptr[..])) && c == Numbered(inUse[..], LastColumn(b, ptr[..]))
      && m == Used(inUse[..], 256) > 0 && Column(c, m)
    ensures nMTF == |Encode(c, m)| && mtfFreq.Length == 258 && Written(mem[..], mtfFreq[..], Encode(c, m))
  {
    ghost var used, order := inUse[..], ptr[..];
    assert forall i {:trigger b[i]} :: 0 <= i < |b| ==> used[b[i]];
    ColumnUsed(b, order, used);
    c := Numbered(used, LastColumn(b, order));
    NumberedColumn(used, LastColumn(b, order));
    var unseqToSeq, k := MakeMapsE(inUse);
    m := k;
    ColumnSource(b, block[..], order, used, unseqToSeq[..]);
    SomeUsed(c, m);
    mem := Halves(ptr, n);
    nMTF, mtfFreq := Generate(mem, block, unseqToSeq, n, m, order, c);
  }

  lemma SomeUsed(c: seq<int>, m: nat)
    requires Column(c, m) && c != []
    ensures m > 0
  {
    assert 0 <= c[0] < m;
  }
}
