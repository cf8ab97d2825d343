/** The bytes of a compressed stream that do not depend on the data: header, magic numbers, the stream of no data. */
module FileFormat {
  import opened Sequences
  import opened Bits
  import opened BitIo
  import opened DecodeMachine
  import opened BlockFormat
  import opened CompressBlock
  import opened Crcs
  import opened StreamMeaning
  import opened StreamRoundTrip
  import E = EncodeStream
  import Rle

  // ---- bits of numbers ----

  lemma {:induction false} ToBitsJoin(a: nat, n: nat, b: nat, m: nat)
    requires b < Pow2(m)
    ensures ToBits(a * Pow2(m) + b, n + m) == ToBits(a, n) + ToBits(b, m)
    decreases m
  {
    if m == 0 {
      assert ToBits(a, n) + [] == ToBits(a, n);
    } else {
      Halve(a, b, Pow2(m - 1));
      ToBitsJoin(a, n, b / 2, m - 1);
      Assoc(ToBits(a, n), ToBits(b / 2, m - 1), [b % 2]);
    }
  }

  lemma Halve(a: nat, b: nat, p: nat)
    requires b < 2 * p
    ensures (a * (2 * p) + b) / 2 == a * p + b / 2 && (a * (2 * p) + b) % 2 == b % 2 && b / 2 < p
  {
    assert a * (2 * p) == 2 * (a * p);
  }

  lemma BytesJoin(a: nat, n: nat, b: nat)
    requires b < 256
    ensures ToBits(a * 256 + b, n + 8) == ToBits(a, n) + ToBits(b, 8)
  {
    assert Pow2(8) == 256 by { assert Pow2(4) == 16; PowAdd(4, 4); }
    ToBitsJoin(a, n, b, 8);
  }

  lemma TwoBytes(a: nat, n: nat, b: nat, c: nat)
    requires b < 256 && c < 256
    ensures ToBits((a * 256 + b) * 256 + c, n + 16) == ToBits(a, n) + (ToBits(b, 8) + ToBits(c, 8))
  {
    BytesJoin(a, n, b);
    BytesJoin(a * 256 + b, n + 8, c);
    Assoc(ToBits(a, n), ToBits(b, 8), ToBits(c, 8));
  }

  /** Six bytes as one number; n is 8. */
  lemma SixBytes(a: nat, b: nat, c: nat, d: nat, e: nat, f: nat, v: nat, n: nat)
    requires b < 256 && c < 256 && d < 256 && e < 256 && f < 256
    requires v == ((((a * 256 + b) * 256 + c) * 256 + d) * 256 + e) * 256 + f
    ensures ToBits(v, n + 40) ==
      ToBits(a, n) + (ToBits(b, 8) + (ToBits(c, 8) + (ToBits(d, 8) + (ToBits(e, 8) + ToBits(f, 8)))))
  {
    var v3 := (a * 256 + b) * 256 + c;
    var v5 := (v3 * 256 + d) * 256 + e;
    TwoBytes(a, n, b, c);
    TwoBytes(v3, n + 16, d, e);
    BytesJoin(v5, n + 32, f);
    Glue(ToBits(a, n), ToBits(b, 8), ToBits(c, 8), ToBits(d, 8), ToBits(e, 8), ToBits(f, 8));
  }

  lemma Glue(a: Bitstring, b: Bitstring, c: Bitstring, d: Bitstring, e: Bitstring, f: Bitstring)
    ensures ((a + (b + c)) + (d + e)) + f == a + (b + (c + (d + (e + f))))
  {
  }

  /** Every block starts with the 48 bits of 0x314159265359. */
  lemma BlockMagicNumber()
    ensures BlockMagics(1) == ToBits(0x314159265359, 48)
  {
    SixBytes(0x31, 0x41, 0x59, 0x26, 0x53, 0x59, 0x314159265359, 8);
    assert BlockMagics(7) == [];
    assert BlockMagics(6) == ToBits(0x59, 8) + [] == ToBits(0x59, 8);
    assert BlockMagics(5) == ToBits(0x53, 8) + BlockMagics(6);
    assert BlockMagics(4) == ToBits(0x26, 8) + BlockMagics(5);
    assert BlockMagics(3) == ToBits(0x59, 8) + BlockMagics(4);
    assert BlockMagics(2) == ToBits(0x41, 8) + BlockMagics(3);
  }

  /** The trailer starts with the 48 bits of 0x177245385090. */
  lemma EndMagicNumber(rest: Bitstring)
    ensures EndMagics(1, rest) == ToBits(0x177245385090, 48) + rest
  {
    SixBytes(0x17, 0x72, 0x45, 0x38, 0x50, 0x90, 0x177245385090, 8);
    assert EndMagics(7, rest) == rest;
    assert EndMagics(6, rest) == ToBits(0x90, 8) + rest;
    assert EndMagics(5, rest) == ToBits(0x50, 8) + EndMagics(6, rest);
    assert EndMagics(4, rest) == ToBits(0x38, 8) + EndMagics(5, rest);
    assert EndMagics(3, rest) == ToBits(0x45, 8) + EndMagics(4, rest);
    assert EndMagics(2, rest) == ToBits(0x72, 8) + EndMagics(3, rest);
    Flatten6(ToBits(0x17, 8), ToBits(0x72, 8), ToBits(0x45, 8), ToBits(0x38, 8), ToBits(0x50, 8), ToBits(0x90, 8),
      rest);
  }

  lemma Flatten6(a: Bitstring, b: Bitstring, c: Bitstring, d: Bitstring, e: Bitstring, f: Bitstring, g: Bitstring)
    ensures (a + (b + (c + (d + (e + f))))) + g == a + (b + (c + (d + (e + (f + g)))))
  {
  }

  // ---- every block starts with its magic number ----

  /** In the trailer no block is found. */
  ghost predicate InTrailer(d: D) { d.at.EndHdr? || d.at.CCrc? }

  lemma TrailerStep(d: D, v: nat)
    requires InTrailer(d)
    ensures match Next(d, v) case Goto(e) => InTrailer(e) case Stop(ret, e) => ret != Ok
  {
  }

  lemma {:induction false} TrailerNeverOk(d: D, bits: Bitstring)
    requires InTrailer(d)
    ensures var r := Go(d, bits); !(r.Returned? && r.ret == Ok)
    decreases |bits|
  {
    var n := Need(d);
    if |bits| >= n {
      var s := Next(d, Value(bits[..n]));
      TrailerStep(d, Value(bits[..n]));
      GoStep(d, bits, s);
      if s.Goto? { TrailerNeverOk(s.d, bits[n..]); }
    }
  }

  lemma HeaderStep(d: D, k: int, v: nat)
    requires d.at == BlkHdr(k) && 1 <= k <= 6
    ensures Need(d) == 8
    ensures match Next(d, v)
      case Goto(e) => InTrailer(e) || (v == BlockMagic(k) && (k < 6 ==> e.at == BlkHdr(k + 1)))
      case Stop(ret, e) => ret != Ok
  {
  }

  lemma MagicByte(d: D, k: int, bits: Bitstring) returns (e: D)
    requires d.at == BlkHdr(k) && 1 <= k <= 6 && Go(d, bits).Returned? && Go(d, bits).ret == Ok
    ensures |bits| >= 8 && bits[..8] == ToBits(BlockMagic(k), 8) && Go(d, bits) == Go(e, bits[8..])
      && (k < 6 ==> e.at == BlkHdr(k + 1))
  {
    HeaderStep(d, k, 0);
    assert |bits| >= 8;
    var v := Value(bits[..8]);
    var s := Next(d, v);
    HeaderStep(d, k, v);
    GoStep(d, bits, s);
    BitsOfValue(bits[..8]);
    e := s.d;
    if InTrailer(e) { TrailerNeverOk(e, bits[8..]); }
  }

  lemma {:induction false} MagicNeeded(d: D, k: int, bits: Bitstring)
    requires d.at == BlkHdr(k) && 1 <= k <= 6 && Go(d, bits).Returned? && Go(d, bits).ret == Ok
    ensures |bits| >= |BlockMagics(k)| && bits[..|BlockMagics(k)|] == BlockMagics(k)
    decreases 7 - k
  {
    var e := MagicByte(d, k, bits);
    if k < 6 { MagicNeeded(e, k + 1, bits[8..]); }
    MagicStep(k, bits);
  }

  lemma MagicStep(k: int, bits: Bitstring)
    requires 1 <= k <= 6 && |bits| >= 8 + |BlockMagics(k + 1)| && bits[..8] == ToBits(BlockMagic(k), 8)
    requires bits[8..][..|BlockMagics(k + 1)|] == BlockMagics(k + 1)
    ensures |bits| >= |BlockMagics(k)| && bits[..|BlockMagics(k)|] == BlockMagics(k)
  {
    Front(bits, BlockMagics(k + 1));
  }

  lemma Front(bits: Bitstring, more: Bitstring)
    requires |bits| >= 8 + |more| && bits[8..][..|more|] == more
    ensures bits[..8 + |more|] == bits[..8] + more
  {
  }

  /** Whatever bits any decoder takes for a block, they start with the magic number. */
  lemma BlockStarts(size: int, q: Piece)
    requires 1 <= size <= 9 && Stores(size, q)
    ensures |q.bits| >= 48 && q.bits[..48] == ToBits(0x314159265359, 48)
  {
    assert q.bits + [] == q.bits;
    assert Go(Started(size), q.bits + []).Returned?;
    MagicNeeded(Started(size), 1, q.bits);
    BlockMagicNumber();
  }

  // ---- the stream of no data ----

  lemma {:induction false} SameBytes(s: seq<int>, t: seq<int>)
    requires AreBytes(s) && AreBytes(t) && ByteBits(s) == ByteBits(t)
    ensures s == t
    decreases |s|
  {
    assert |s| == |t|;
    if s != [] {
      assert ToBits(s[0], 8) == ByteBits(s)[..8] == ByteBits(t)[..8] == ToBits(t[0], 8);
      assert ByteBits(s[1..]) == ByteBits(s)[8..] == ByteBits(t)[8..] == ByteBits(t[1..]);
      assert Pow2(8) == 256 by { assert Pow2(4) == 16; PowAdd(4, 4); }
      ValueOfBits(s[0], 8);
      ValueOfBits(t[0], 8);
      SameBytes(s[1..], t[1..]);
      assert s == [s[0]] + s[1..] && t == [t[0]] + t[1..];
    }
  }

  /** The compressed form of no data at all. */
  function NoData(): seq<int> { [0x42, 0x5a, 0x68, 0x39, 0x17, 0x72, 0x45, 0x38, 0x50, 0x90, 0, 0, 0, 0] }

  lemma TailBits(b: nat, t: seq<int>)
    requires b < 256 && AreBytes(t)
    ensures AreBytes([b] + t) && ByteBits([b] + t) == ToBits(b, 8) + ByteBits(t)
  {
    assert ([b] + t)[1..] == t;
  }

  lemma NoDataBits()
    ensures AreBytes(NoData()) && ByteBits(NoData()) == HeaderThen(9, EndMagics(1, CrcBits([0, 0, 0, 0])))
  {
    var z: seq<int> := [0, 0, 0, 0];
    FourBits(z);
    EndBits(CrcBits(z));
    TrailerBits(z);
    FourFirst(0x42, 0x5a, 0x68, 0x39, Trailer(z));
    NoDataSpelled();
  }

  lemma NoDataSpelled()
    ensures NoData() == [0x42] + ([0x5a] + ([0x68] + ([0x39] + Trailer([0, 0, 0, 0]))))
  {
    var z: seq<int> := [0, 0, 0, 0];
    assert [0x50] + ([0x90] + z) == [0x50, 0x90, 0, 0, 0, 0];
    assert [0x45] + ([0x38] + [0x50, 0x90, 0, 0, 0, 0]) == [0x45, 0x38, 0x50, 0x90, 0, 0, 0, 0];
    assert Trailer(z) == [0x17, 0x72, 0x45, 0x38, 0x50, 0x90, 0, 0, 0, 0];
  }

  lemma FourFirst(a: nat, b: nat, c: nat, d: nat, t: seq<int>)
    requires a < 256 && b < 256 && c < 256 && d < 256 && AreBytes(t)
    ensures AreBytes([a] + ([b] + ([c] + ([d] + t))))
    ensures ByteBits([a] + ([b] + ([c] + ([d] + t)))) ==
      ToBits(a, 8) + (ToBits(b, 8) + (ToBits(c, 8) + (ToBits(d, 8) + ByteBits(t))))
  {
    var h4 := [d] + t;
    var h3 := [c] + h4;
    var h2 := [b] + h3;
    TailBits(d, t);
    TailBits(c, h4);
    TailBits(b, h3);
    TailBits(a, h2);
  }

  /** The bytes of a trailer that stores z. */
  function Trailer(z: seq<int>): seq<int> { [0x17] + ([0x72] + ([0x45] + ([0x38] + ([0x50] + ([0x90] + z))))) }

  lemma TrailerBits(z: seq<int>)
    requires AreBytes(z)
    ensures AreBytes(Trailer(z)) && ByteBits(Trailer(z)) == ToBits(0x17, 8) + (ToBits(0x72, 8) + (ToBits(0x45, 8)
      + (ToBits(0x38, 8) + (ToBits(0x50, 8) + (ToBits(0x90, 8) + ByteBits(z))))))
  {
    var e6 := [0x90] + z;
    var e5 := [0x50] + e6;
    var e4 := [0x38] + e5;
    var e3 := [0x45] + e4;
    var e2 := [0x72] + e3;
    TailBits(0x90, z);
    TailBits(0x50, e6);
    TailBits(0x38, e5);
    TailBits(0x45, e4);
    TailBits(0x72, e3);
    TailBits(0x17, e2);
  }

  lemma FourBits(z: seq<int>)
    requires |z| == 4 && AreBytes(z)
    ensures ByteBits(z) == CrcBits(z)
  {
    var t1, t2, t3: seq<int> := [z[1], z[2], z[3]], [z[2], z[3]], [z[3]];
    assert z == [z[0]] + t1 && t1 == [z[1]] + t2 && t2 == [z[2]] + t3 && t3 == [z[3]] + [];
    TailBits(z[3], []);
    TailBits(z[2], t3);
    TailBits(z[1], t2);
    TailBits(z[0], t1);
    assert ToBits(z[3], 8) + [] == ToBits(z[3], 8);
  }

  lemma EndBits(rest: Bitstring)
    ensures EndMagics(1, rest) == ToBits(0x17, 8) + (ToBits(0x72, 8) + (ToBits(0x45, 8) + (ToBits(0x38, 8)
      + (ToBits(0x50, 8) + (ToBits(0x90, 8) + rest)))))
  {
    assert EndMagics(7, rest) == rest;
    assert EndMagics(6, rest) == ToBits(0x90, 8) + rest;
    assert EndMagics(5, rest) == ToBits(0x50, 8) + EndMagics(6, rest);
    assert EndMagics(4, rest) == ToBits(0x38, 8) + EndMagics(5, rest);
    assert EndMagics(3, rest) == ToBits(0x45, 8) + EndMagics(4, rest);
    assert EndMagics(2, rest) == ToBits(0x72, 8) + EndMagics(3, rest);
  }

  /** No data, in blocks of 900000 bytes, gives these fourteen bytes and no others. */
  lemma NoDataFile(k: Crc, made: seq<int>)
    requires E.IsFile(k, 9, [], made)
    ensures made == NoData()
  {
    var qs, cc, pad: nat :| E.Formatted(k, 9, qs, cc, pad, made) && AllBytes(qs) == [];
    NoBlocks(k, 9, qs);
    ZeroCrc(cc);
    E.EndJoin(1, CrcBits(cc), Zeros(pad));
    E.HeaderJoin(9, EndMagics(1, CrcBits(cc)), Zeros(pad));
    NoDataBits();
    Unpadded(made, NoData(), pad);
  }

  lemma Unpadded(s: seq<int>, t: seq<int>, pad: nat)
    requires AreBytes(s) && AreBytes(t) && ByteBits(s) == ByteBits(t) + Zeros(pad) && pad < 8
    ensures s == t
  {
    assert 8 * |s| == 8 * |t| + pad;
    assert ByteBits(t) + Zeros(0) == ByteBits(t);
    SameBytes(s, t);
  }

  lemma ZeroCrc(cc: seq<int>)
    requires |cc| == 4 && AreBytes(cc) && CrcValue(cc) == 0
    ensures cc == [0, 0, 0, 0]
  {
    assert cc[0] >= 0 && cc[1] >= 0 && cc[2] >= 0 && cc[3] >= 0;
  }

  lemma NoBlocks(k: Crc, size: int, qs: seq<Piece>)
    requires E.GoodPieces(k, size, qs) && AllBytes(qs) == []
    ensures qs == []
  {
    if qs != [] {
      assert GoodPiece(k, size, qs[0]);
      RunsNonEmpty(qs[0].runs);
    }
  }

  lemma RunsNonEmpty(ps: seq<Rle.Pair>)
    requires Rle.Runs(ps) && ps != []
    ensures Rle.Expanded(ps) != []
  {
  }

  /** With another combined CRC in it the same stream is refused. */
  lemma NoDataWrongCrc(k: Crc, cc: seq<int>, rest: Bitstring)
    requires |cc| == 4 && AreBytes(cc) && CrcValue(cc) != 0
    ensures Stream(k, Init(), 0, HeaderThen(9, EndMagics(1, CrcBits(cc) + rest))) == Meaning([], DataErr)
  {
    TrailerDecides(k, 9, [], cc, rest);
  }
}
