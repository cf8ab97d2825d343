/** The block of the one byte 'a', bit by bit: a known answer for every part of the block format. */
module OneByteBlock {
  import opened Counting
  import opened Rotations
  import opened Bwt
  import opened MtfTable
  import opened Mtf
  import opened MtfEncode
  import opened Bits
  import opened BitIo
  import C = Canonical
  import opened DecodeMachine
  import opened BlockFormat
  import opened BlockRoundTrip
  import opened CompressBlock
  import opened Crcs
  import opened StreamMeaning
  import opened StreamRoundTrip
  import FF = FileFormat
  import Rle

  /** Only byte 97 is in use. */
  ghost predicate OnlyA(inUse: seq<bool>) {
    |inUse| == 256 && forall v {:trigger inUse[v]} :: 0 <= v < 256 ==> (inUse[v] <==> v == 97)
  }

  /** All zeros but a one at place k. */
  function OneAt(n: nat, k: int): (r: Bitstring)
    ensures |r| == n
  {
    seq(n, i => if i == k then 1 else 0)
  }

  // ---- the mapping table ----

  lemma {:induction false} FlagsOfA(inUse: seq<bool>, i: nat)
    requires OnlyA(inUse) && i <= 16
    ensures RowFlags(inUse, i) == OneAt(16 - i, 6 - i)
    decreases 16 - i
  {
    if i < 16 {
      FlagsOfA(inUse, i + 1);
      assert RowUsed(inUse, i) <==> i == 6 by {
        if i == 6 { assert inUse[97]; }
      }
      assert OneAt(16 - i, 6 - i) == Bit01(RowUsed(inUse, i)) + OneAt(15 - i, 5 - i);
    }
  }

  lemma {:induction false} RowOfA(inUse: seq<bool>, j: nat)
    requires OnlyA(inUse) && j <= 16
    ensures RowBits(inUse, 6, j) == OneAt(16 - j, 1 - j)
    decreases 16 - j
  {
    if j < 16 {
      RowOfA(inUse, j + 1);
      assert OneAt(16 - j, 1 - j) == Bit01(inUse[96 + j]) + OneAt(15 - j, 0 - j);
    }
  }

  lemma {:induction false} MapOfA(inUse: seq<bool>, i: nat)
    requires OnlyA(inUse) && i <= 16
    ensures MapBits(inUse, i) == if i <= 6 then OneAt(16, 1) else []
    decreases 16 - i
  {
    if i < 16 {
      MapOfA(inUse, i + 1);
      RowOfA(inUse, 0);
      assert RowUsed(inUse, i) <==> i == 6 by {
        if i == 6 { assert inUse[97]; }
      }
    }
  }

  lemma {:induction false} UsedOfA(inUse: seq<bool>, i: nat)
    requires OnlyA(inUse) && i <= 256
    ensures Used(inUse, i) == if i <= 97 then 0 else 1
  {
    if i > 0 { UsedOfA(inUse, i - 1); }
  }

  // ---- numbers ----

  lemma {:induction false} ZeroIs(n: nat)
    ensures ToBits(0, n) == OneAt(n, -1)
  {
    if n > 0 {
      ZeroIs(n - 1);
      assert OneAt(n, -1) == OneAt(n - 1, -1) + [0];
    }
  }

  lemma OneIs(n: nat)
    requires n > 0
    ensures ToBits(1, n) == OneAt(n, n - 1)
  {
    ZeroIs(n - 1);
    assert OneAt(n, n - 1) == OneAt(n - 1, -1) + [1];
  }

  lemma TwoIs(n: nat)
    requires n > 1
    ensures ToBits(2, n) == OneAt(n, n - 2)
  {
    OneIs(n - 1);
    assert OneAt(n, n - 2) == OneAt(n - 1, n - 2) + [0];
  }

  // ---- tables and symbols ----

  /** RUNA and RUNB take two bits, the end of the block one. */
  function Short(): seq<nat> { [2, 2, 1] }

  lemma DeltasOfA()
    ensures Deltas(2, Short()) == [0, 0, 1, 1, 0]
  {
    assert Short()[1..] == [2, 1] && [2, 1][1..] == [1] && [1][1..] == [];
    assert Deltas(1, []) == [];
    assert Delta(2, 1) == [1, 1] + Delta(1, 1) == [1, 1, 0];
    assert Deltas(2, [1]) == [1, 1, 0] + [] == [1, 1, 0];
    assert Deltas(2, [2, 1]) == [0] + [1, 1, 0] == [0, 1, 1, 0];
  }

  lemma LengthsOfA()
    ensures LengthBits([Short(), Short()]) == [0, 0, 0, 1, 0, 0, 0, 1, 1, 0] + [0, 0, 0, 1, 0, 0, 0, 1, 1, 0]
  {
    TwoIs(5);
    DeltasOfA();
    var one: Bitstring := [0, 0, 0, 1, 0, 0, 0, 1, 1, 0];
    assert ToBits(2, 5) == [0, 0, 0, 1, 0];
    assert ToBits(2, 5) + [0, 0, 1, 1, 0] == one;
    assert [Short(), Short()][1..] == [Short()] && [Short()][1..] == [];
    assert LengthBits([Short()]) == one + [] == one;
  }

  lemma SymbolsOfA()
    ensures Column([0], 1) && Encode([0], 1) == [RUNA, 2]
  {
    assert After([0], 1, 0) == State(Iota(1), 0, []);
    assert Iota(1)[0] == 0;
    assert After([0], 1, 1) == State(Iota(1), 1, []);
    assert Run(1) == [RUNA] + Run(0) == [RUNA];
    assert [] + [RUNA] + [2] == [RUNA, 2];
  }

  lemma CodesOfA()
    ensures CodeBits(Short(), RUNA) == [1, 0] && CodeBits(Short(), RUNB) == [1, 1] && CodeBits(Short(), 2) == [0]
  {
    var s := Short();
    assert Occ(s, 0, 3) == 0 && Occ(s, 1, 3) == 1 && Occ(s, 2, 0) == 0 && Occ(s, 2, 1) == 1 && Occ(s, 1, 2) == 0;
    assert C.First(s, 1) == 0 && C.First(s, 2) == 2;
    assert ToBits(0, 1) == [0] && ToBits(1, 1) == [1];
    assert ToBits(2, 2) == [1, 0] && ToBits(3, 2) == [1, 1];
  }

  lemma CodedA()
    ensures SymBits([Short(), Short()], [0], [RUNA, 2], 0) == [1, 0, 0]
  {
    var lens, syms := [Short(), Short()], [RUNA, 2];
    CodesOfA();
    assert SymBits(lens, [0], syms, 2) == [];
    assert SymBits(lens, [0], syms, 1) == [0] + [] == [0];
    assert SymBits(lens, [0], syms, 0) == [1, 0] + [0];
  }

  lemma SelectorOfA()
    ensures 0 in Iota(2) && SelectorMtf([0], Iota(2)) == [0] && UnaryAll([0]) == [0]
  {
    assert Iota(2)[0] == 0;
    assert [0][1..] == [];
    assert Unary(0) == [0];
  }

  lemma SumOfThree(a: int, b: int, c: int)
    ensures C.Tree.Sum([a, b, c]) == a + b + c
  {
    assert [a, b, c][..2] == [a, b] && [a, b][..1] == [a] && [a][..0] == [];
    assert C.Tree.Sum([a]) == a;
    assert C.Tree.Sum([a, b]) == a + b;
  }

  lemma SharesOfA(n: nat)
    ensures C.Tree.Sum(C.Tree.Shares(Short(), n + 2)) == Pow2(n + 2)
  {
    assert Pow2(n + 2) == 2 * Pow2(n + 1) && Pow2(n + 1) == 2 * Pow2(n);
    assert C.Tree.Shares(Short(), n + 2) == [Pow2(n), Pow2(n), Pow2(n + 1)];
    SumOfThree(Pow2(n), Pow2(n), Pow2(n + 1));
  }

  lemma ShortIsCode()
    ensures GoodLengths(Short(), 3) && C.Kraft(Short(), C.LONGEST)
  {
    SharesOfA(18);
  }

  lemma ChoiceOfA()
    ensures Choice([Short(), Short()], [0], [0], 1)
  {
    SymbolsOfA();
    ShortIsCode();
  }

  // ---- the block ----

  /** What follows the CRC: no randomisation, and these pieces. */
  function TailFrom(row: Bitstring, flags: Bitstring, map_: Bitstring, tables: Bitstring, groups: Bitstring,
      selectors: Bitstring, lengths: Bitstring, symbols: Bitstring): Bitstring {
    [0] + (row + (flags + (map_ + (tables + (groups + (selectors + (lengths + symbols)))))))
  }

  /** Row 0 of the sorted rotations, the sixth row of the mapping table and the second byte of it, two tables, one
      selector, which is the first table, the lengths 2, 2, 1 twice, RUNA and the end of the block. */
  function TailOfA(): Bitstring {
    TailFrom(OneAt(24, -1), [0, 0, 0, 0, 0, 0, 1, 0, 0, 0, 0, 0, 0, 0, 0, 0],
      [0, 1, 0, 0, 0, 0, 0, 0, 0, 0, 0, 0, 0, 0, 0, 0], [0, 1, 0], OneAt(15, 14), [0],
      [0, 0, 0, 1, 0, 0, 0, 1, 1, 0] + [0, 0, 0, 1, 0, 0, 0, 1, 1, 0], [1, 0, 0])
  }

  function BlockOfA(crc: seq<int>): Bitstring
    requires |crc| == 4 && AreBytes(crc)
  {
    ToBits(0x314159265359, 48) + (CrcBits(crc) + TailOfA())
  }

  lemma TableOfA(inUse: seq<bool>, i: nat)
    requires OnlyA(inUse) && i == 0
    ensures RowFlags(inUse, i) == [0, 0, 0, 0, 0, 0, 1, 0, 0, 0, 0, 0, 0, 0, 0, 0]
    ensures MapBits(inUse, i) == [0, 1, 0, 0, 0, 0, 0, 0, 0, 0, 0, 0, 0, 0, 0, 0]
  {
    FlagsOfA(inUse, i);
    MapOfA(inUse, i);
    RowsSpelled();
  }

  lemma TailIs(inUse: seq<bool>, i: nat, n: nat, m: nat, t: nat)
    requires OnlyA(inUse) && i == 0 && n == 24 && m == 15 && t == 3
    ensures TailOfA() == TailFrom(ToBits(0, n), RowFlags(inUse, i), MapBits(inUse, i), ToBits(2, t), ToBits(1, m), [0],
      LengthBits([Short(), Short()]), [1, 0, 0])
  {
    TableOfA(inUse, i);
    ZeroIs(n);
    OneIs(m);
    TwoOf(t);
    LengthsOfA();
  }

  lemma TwoOf(t: nat)
    requires t == 3
    ensures ToBits(2, t) == [0, 1, 0]
  {
    TwoIs(t);
  }

  lemma RowsSpelled()
    ensures OneAt(16, 6) == [0, 0, 0, 0, 0, 0, 1, 0, 0, 0, 0, 0, 0, 0, 0, 0]
    ensures OneAt(16, 1) == [0, 1, 0, 0, 0, 0, 0, 0, 0, 0, 0, 0, 0, 0, 0, 0]
  {
  }

  lemma BlockParts(crc: seq<int>, row: nat, inUse: seq<bool>, c: seq<int>, lens: seq<seq<nat>>, sel: seq<int>,
      mtf: seq<int>, syms: Bitstring, n: nat, m: nat, t: nat, i: nat)
    requires |crc| == 4 && AreBytes(crc) && |inUse| == 256 && Choice(lens, sel, c, Used(inUse, 256))
    requires n == 24 && m == 15 && t == 3 && i == 0
    requires forall x {:trigger sel[x]} :: 0 <= x < |sel| ==> sel[x] in Iota(|lens|)
    requires mtf == SelectorMtf(sel, Iota(|lens|)) && syms == SymBits(lens, sel, Encode(c, Used(inUse, 256)), 0)
    ensures BlockThen(crc, row, inUse, c, lens, sel, []) == BlockMagics(1) + (CrcBits(crc) + TailFrom(ToBits(row, n),
      RowFlags(inUse, i), MapBits(inUse, i), ToBits(|lens|, t), ToBits(|mtf|,
        m), UnaryAll(mtf), LengthBits(lens), syms))
  {
    assert syms + [] == syms;
  }

  /** The bits of the block, whose only byte is the only one in use. */
  lemma BlockIs(inUse: seq<bool>, crc: seq<int>, n: nat, m: nat, t: nat, i: nat)
    requires OnlyA(inUse) && |crc| == 4 && AreBytes(crc) && n == 24 && m == 15 && t == 3 && i == 0
    ensures Used(inUse, 256) == 1 && Choice([Short(), Short()], [0], [0], 1)
    ensures BlockThen(crc, 0, inUse, [0], [Short(), Short()], [0], []) == BlockOfA(crc)
  {
    UsedOfA(inUse, 256);
    ChoiceOfA();
    SelectorOfA();
    SymbolsOfA();
    CodedA();
    BlockParts(crc, 0, inUse, [0], [Short(), Short()], [0], [0], [1, 0, 0], n, m, t, i);
    TailIs(inUse, i, n, m, t);
    FF.BlockMagicNumber();
  }

  /** A decoder reads the byte back from these bits. */
  lemma StoresA(size: int, crc: seq<int>)
    requires 1 <= size <= 9 && |crc| == 4 && AreBytes(crc)
    ensures Stores(size, Piece(BlockOfA(crc), crc, [Rle.Pair(97, 1)]))
  {
    var b: Block, inUse := [97], seq(256, v => v == 97);
    var bits := BlockOfA(crc);
    RunOfA();
    BlockIs(inUse, crc, 24, 15, 3, 0);
    ColumnOfA(inUse);
    WrittenDecodes(bits, b, [0], 0, inUse, crc, [Short(), Short()], [0], size);
  }

  lemma RunOfA()
    ensures var r := [Rle.Pair(97, 1)]; Rle.Runs(r) && Rle.Encoded(r) == [97] && Rle.Expanded(r) == [97]
  {
    Rle.EncodedMore([], Rle.Pair(97, 1));
    assert [] + [Rle.Pair(97, 1)] == [Rle.Pair(97, 1)];
  }

  lemma ColumnOfA(inUse: seq<bool>)
    requires OnlyA(inUse)
    ensures SortsRotations([97], [0]) && LastColumn([97], [0]) == [97] && AllUsed(inUse, [97])
      && Numbered(inUse, [97]) == [0]
  {
    UsedOfA(inUse, 97);
    OneRow([97]);
  }

  lemma OneRow(b: Block)
    requires |b| == 1
    ensures SortsRotations(b, [0]) && LastColumn(b, [0]) == b
  {
  }

  /** The stream of the one byte 'a' in blocks of 900000 bytes, for the CRC of bzip2. */
  lemma StreamOfA(k: Crc, rest: Bitstring)
    requires (k.last)(Fold(k, k.init, [97])) == 0x19939b6b && (k.combine)(0, 0x19939b6b) == 0x19939b6b
    ensures var crc: seq<int> := [0x19, 0x93, 0x9b, 0x6b];
      Stream(k, Init(), 0, HeaderThen(9, BlockOfA(crc) + EndMagics(1, CrcBits(crc) + rest))) == Meaning([97], WellEnded)
  {
    var crc: seq<int> := [0x19, 0x93, 0x9b, 0x6b];
    var q := Piece(BlockOfA(crc), crc, [Rle.Pair(97, 1)]);
    StoresA(9, crc);
    RunOfA();
    OnePiece(k, q, EndMagics(1, CrcBits(crc) + rest));
    TrailerDecides(k, 9, [q], crc, rest);
  }

  lemma OnePiece(k: Crc, q: Piece, rest: Bitstring)
    requires |q.crc| == 4
    ensures BlocksThen([q], rest) == q.bits + rest && AllBytes([q]) == Rle.Expanded(q.runs)
      && Combine(k, 0, [q]) == (k.combine)(0, CrcValue(q.crc))
  {
    assert [q][1..] == [];
    assert Rle.Expanded(q.runs) + [] == Rle.Expanded(q.runs);
  }

  // ---- longer examples of two of the steps ----

  /** So many times the first byte, which is at the front. */
  lemma {:induction false} FrontRun(c: seq<int>, m: nat, n: nat)
    requires Column(c, m) && 0 < m && n <= |c| && forall i {:trigger c[i]} :: 0 <= i < n ==> c[i] == 0
    ensures After(c, m, n) == State(Iota(m), n, [])
  {
    if n > 0 {
      FrontRun(c, m, n - 1);
      assert Iota(m)[0] == 0;
    }
  }

  /** Then the second byte: it ends the run and moves to the front. */
  lemma SecondByte(e: State, n: nat)
    requires e == State([0, 1], n, [])
    ensures 1 in e.l && Mtf.Step(e, 1) == State([1, 0], 0, Run(n) + [2])
  {
    assert e.l[1] == 1 && e.l[1..] == [1];
    assert Find(e.l, 1) == 1;
    assert MoveToFront(e.l, 1) == [1, 0];
    assert [] + Run(n) == Run(n);
  }

  /** Five times the first byte, and the second one twice: a run of five is RUNA, RUNB, the second byte is at place 1,
      and then at the front. */
  lemma ColumnSpelled(c: seq<int>, m: nat)
    requires c == [0, 0, 0, 0, 0, 1, 1] && m == 2
    ensures Column(c, m) && Encode(c, m) == [0, 1, 2, 0, 3]
  {
    var n: nat := |c| - 2;
    FrontRun(c, m, n);
    assert Iota(m) == [0, 1];
    SecondByte(After(c, m, n), n);
    RunsSpelled();
    assert After(c, m, n + 1) == State([1, 0], 0, [0, 1, 2]);
    assert After(c, m, n + 2) == State([1, 0], 1, [0, 1, 2]);
    assert [0, 1, 2] + [0] + [3] == [0, 1, 2, 0, 3];
  }

  lemma RunsSpelled()
    ensures Run(1) == [0] && Run(2) == [1] && Run(5) == [0, 1]
  {
    assert Run(0) == [];
    assert [0] + [] == [0] && [1] + [] == [1] && [0] + [1] == [0, 1];
  }

  /** Lengths 2, 1, 3, 3 give the codes 10, 0, 110, 111. */
  lemma CodesSpelled()
    ensures var len: seq<nat> := [2, 1, 3, 3];
      C.Code(len, 0) == 2 && C.Code(len, 1) == 0 && C.Code(len, 2) == 6 && C.Code(len, 3) == 7
  {
    var len: seq<nat> := [2, 1, 3, 3];
    assert Occ(len, 0, 4) == 0 && Occ(len, 1, 4) == 1 && Occ(len, 2, 4) == 1;
    assert C.First(len, 1) == 0 && C.First(len, 2) == 2 && C.First(len, 3) == 6;
    assert Occ(len, 2, 0) == 0 && Occ(len, 1, 1) == 0 && Occ(len, 3, 2) == 0 && Occ(len, 3, 3) == 1;
  }
}
