/** A whole stream: header, blocks and trailer decode to the bytes that were compressed. */
module StreamRoundTrip {
  import opened Rotations
  import opened Bits
  import opened BitIo
  import opened DecodeMachine
  import opened BlockFormat
  import BF = BlockFormat
  import opened BlockRoundTrip
  import opened CompressBlock
  import opened Crcs
  import opened StreamMeaning
  import opened Unpack
  import Rle

  /** The bytes 'B', 'Z', 'h' and the block size as a digit, and then rest. */
  function HeaderThen(size: int, rest: Bitstring): Bitstring
    requires 1 <= size <= 9
  {
    ToBits(0x42, 8) + (ToBits(0x5a, 8) + (ToBits(0x68, 8) + (ToBits(0x30 + size, 8) + rest)))
  }

  lemma HeaderByte(d: D, k: int, v: nat, rest: Bitstring)
    requires d.at == Magic(k) && v < 256
    ensures Comes(Goto(d), ToBits(v, 8) + rest, NextMagic(d, k, v), rest)
  {
    PowWord();
    BF.Reads(d, v, 8, rest);
  }

  /** The machine after the header. */
  ghost function Started(size: int): D {
    Init().(at := BlkHdr(1), h := Init().h.(size := size))
  }

  lemma HeaderReads(size: int, rest: Bitstring)
    requires 1 <= size <= 9
    ensures Go(Init(), HeaderThen(size, rest)) == Go(Started(size), rest)
  {
    var d := Init();
    var r3 := ToBits(0x30 + size, 8) + rest;
    var r2 := ToBits(0x68, 8) + r3;
    var r1 := ToBits(0x5a, 8) + r2;
    HeaderByte(d, 1, 0x42, r1);
    HeaderByte(d.(at := Magic(2)), 2, 0x5a, r2);
    HeaderByte(d.(at := Magic(3)), 3, 0x68, r3);
    HeaderByte(d.(at := Magic(4)), 4, 0x30 + size, rest);
    ComesOpens(Goto(d), HeaderThen(size, rest), Goto(Started(size)), rest);
  }

  /** The end-of-stream magic number and the combined CRC, and then rest. */
  function EndMagics(k: nat, rest: Bitstring): Bitstring
    requires 1 <= k <= 7
    decreases 7 - k
  {
    if k == 7 then rest else ToBits(EndMagic(k), 8) + EndMagics(k + 1, rest)
  }

  lemma {:induction false} EndReads(d: D, k: nat, rest: Bitstring)
    requires 2 <= k <= 6 && d.at == EndHdr(k)
    ensures Comes(Goto(d), EndMagics(k, rest), Goto(d.(at := CCrc(1), h := d.h.(combinedCRC := 0))), rest)
    decreases 7 - k
  {
    EndByte(d, k, EndMagics(k + 1, rest));
    if k < 6 { EndReads(d.(at := EndHdr(k + 1)), k + 1, rest); }
  }

  lemma EndNext(d: D, k: nat)
    requires d.at == EndHdr(k)
    ensures Next(d, EndMagic(k)) == NextTrailer(d, k, EndMagic(k)) && Need(d) == 8
  {
  }

  lemma EndByte(d: D, k: nat, rest: Bitstring)
    requires 2 <= k <= 6 && d.at == EndHdr(k)
    ensures Comes(Goto(d), ToBits(EndMagic(k), 8) + rest, NextTrailer(d, k, EndMagic(k)), rest)
  {
    PowWord();
    EndNext(d, k);
    BF.Reads(d, EndMagic(k), 8, rest);
  }

  lemma FirstEndByte(d: D, rest: Bitstring)
    requires d.at == BlkHdr(1)
    ensures Comes(Goto(d), ToBits(EndMagic(1), 8) + rest, Goto(d.(at := EndHdr(2))), rest)
  {
    PowWord();
    BF.Reads(d, EndMagic(1), 8, rest);
  }

  ghost function CombinedStep(d: D, k: int, byte: nat): Step {
    var e := d.(h := d.h.(combinedCRC := d.h.combinedCRC * 256 + byte));
    if k < 4 then Goto(e.(at := CCrc(k + 1))) else Stop(StreamEnd, e.(at := Idle))
  }

  lemma CombinedNext(d: D, k: int, byte: nat)
    requires d.at == CCrc(k)
    ensures Next(d, byte) == CombinedStep(d, k, byte) && Need(d) == 8
  {
  }

  lemma CombinedByte(d: D, k: int, byte: nat, rest: Bitstring)
    requires d.at == CCrc(k) && byte < 256
    ensures Comes(Goto(d), ToBits(byte, 8) + rest, CombinedStep(d, k, byte), rest)
  {
    PowWord();
    CombinedNext(d, k, byte);
    BF.Reads(d, byte, 8, rest);
  }

  lemma CombinedReads(d: D, c: seq<int>, rest: Bitstring)
    requires d.at == CCrc(1) && d.h.combinedCRC == 0 && |c| == 4 && AreBytes(c)
    ensures Comes(Goto(d), CrcBits(c) + rest, Stop(StreamEnd, d.(at := Idle, h := d.h.(combinedCRC := CrcValue(c)))),
      rest)
  {
    CrcSplit(c, rest);
    var v1 := c[0];
    var v2 := v1 * 256 + c[1];
    var v3 := v2 * 256 + c[2];
    CombinedByte(d, 1, c[0], ToBits(c[1], 8) + (ToBits(c[2], 8) + (ToBits(c[3], 8) + rest)));
    CombinedByte(d.(at := CCrc(2), h := d.h.(combinedCRC := v1)), 2, c[1], ToBits(c[2], 8) + (ToBits(c[3], 8) + rest));
    CombinedByte(d.(at := CCrc(3), h := d.h.(combinedCRC := v2)), 3, c[2], ToBits(c[3], 8) + rest);
    CombinedByte(d.(at := CCrc(4), h := d.h.(combinedCRC := v3)), 4, c[3], rest);
  }

  lemma TrailerReads(d: D, c: seq<int>, rest: Bitstring) returns (e: D)
    requires d.at == BlkHdr(1) && |c| == 4 && AreBytes(c)
    ensures Go(d, EndMagics(1, CrcBits(c) + rest)) == Returned(StreamEnd, e, rest) && e.h.combinedCRC == CrcValue(c)
  {
    var more := CrcBits(c) + rest;
    FirstEndByte(d, EndMagics(2, more));
    EndReads(d.(at := EndHdr(2)), 2, more);
    var f := d.(at := CCrc(1), h := d.h.(combinedCRC := 0));
    CombinedReads(f, c, rest);
    e := f.(at := Idle, h := f.h.(combinedCRC := CrcValue(c)));
    ComesOpens(Goto(d), EndMagics(1, more), Stop(StreamEnd, e), rest);
  }

  // ---- the blocks ----

  /** A block of the stream: its bits, the bytes of its CRC, and the runs of input it holds. */
  datatype Piece = Piece(bits: Bitstring, crc: seq<int>, runs: seq<Rle.Pair>)

  /** The bits are those of a block that holds the runs and stores these bytes as its CRC. */
  ghost predicate Stores(size: int, q: Piece) {
    && |q.crc| == 4 && AreBytes(q.crc) && Rle.Runs(q.runs) && q.runs != [] && AreBytes(Rle.Encoded(q.runs))
    && Rle.Encoded(q.runs) != []
    && DecodesTo(q.bits, Rle.Encoded(q.runs), size, q.crc)
  }

  /** The CRC stored is that of the bytes the runs stand for. */
  ghost predicate RightCrc(k: Crc, q: Piece) {
    |q.crc| == 4 && CrcValue(q.crc) == (k.last)(Fold(k, k.init, Rle.Expanded(q.runs)))
  }

  ghost predicate GoodPiece(k: Crc, size: int, q: Piece) { Stores(size, q) && RightCrc(k, q) }

  /** What comes out of a block is what went into it. */
  lemma BlockBack(e: D, b: Block, ps: seq<Rle.Pair>)
    requires HasBlock(e) && Decoded(e) == b && b == Rle.Encoded(ps) && Rle.Runs(ps)
    ensures BlockBytes(e) == Rle.Expanded(ps) && BlockEnds(e) == |e.y.out|
  {
    var c := ColumnFor(e);
    FetchesWalk(c);
    var f, n := Fetches(c), |c.l|;
    assert f[0..n] == f[..n] == b;
    Rle.RestInverts(f, n, 0, ps);
  }

  ghost function Combine(k: Crc, combined: int, qs: seq<Piece>): int
    decreases |qs|
  {
    if qs == [] then combined
    else Combine(k, (k.combine)(combined, if |qs[0].crc| == 4 then CrcValue(qs[0].crc) else 0), qs[1..])
  }

  ghost function AllBytes(qs: seq<Piece>): seq<int> {
    if qs == [] then [] else Rle.Expanded(qs[0].runs) + AllBytes(qs[1..])
  }

  ghost function BlocksThen(qs: seq<Piece>, rest: Bitstring): Bitstring {
    if qs == [] then rest else qs[0].bits + BlocksThen(qs[1..], rest)
  }

  /** One block, with whatever CRC it stores. */
  lemma OneBlock(k: Crc, size: int, d: D, combined: int, q: Piece, rest: Bitstring) returns (e: D)
    requires 1 <= size <= 9 && Stores(size, q) && d.at == BlkHdr(1) && d.h.size == size
    ensures e.at == BlkHdr(1) && e.h.size == size
    ensures Stream(k, d, combined, q.bits + rest) ==
      if RightCrc(k, q) then Pre(Rle.Expanded(q.runs), Stream(k, e, (k.combine)(combined, CrcValue(q.crc)), rest))
      else Meaning(Rle.Expanded(q.runs), DataErr)
  {
    var r := Go(d, q.bits + rest);
    var b: Block := Rle.Encoded(q.runs);
    assert r.Returned? && r.ret == Ok && r.rest == rest;
    e := r.d.(at := BlkHdr(1));
    BlockBack(r.d, b, q.runs);
  }

  /** From the first block on: the bytes of the blocks, and then whatever follows them. */
  lemma {:induction false} BlocksBack(k: Crc, size: int, d: D, combined: int, qs: seq<Piece>, tail: Bitstring)
      returns (e: D)
    requires 1 <= size <= 9 && (forall i {:trigger qs[i]} :: 0 <= i < |qs| ==> GoodPiece(k, size, qs[i]))
      && d.at == BlkHdr(1) && d.h.size == size
    ensures e.at == BlkHdr(1) && e.h.size == size
    ensures Stream(k, d, combined, BlocksThen(qs, tail)) ==
      Pre(AllBytes(qs), Stream(k, e, Combine(k, combined, qs), tail))
    decreases |qs|
  {
    if qs == [] {
      e := d;
      PreNothing(Stream(k, d, combined, tail));
    } else {
      var f := OneBlock(k, size, d, combined, qs[0], BlocksThen(qs[1..], tail));
      var now := (k.combine)(combined, CrcValue(qs[0].crc));
      e := BlocksBack(k, size, f, now, qs[1..], tail);
      PrePre(Rle.Expanded(qs[0].runs), AllBytes(qs[1..]), Stream(k, e, Combine(k, now, qs[1..]), tail));
    }
  }

  lemma OnlyTrailer(k: Crc, d: D, combined: int, cc: seq<int>, rest: Bitstring)
    requires d.at == BlkHdr(1) && |cc| == 4 && AreBytes(cc)
    ensures Stream(k, d, combined, EndMagics(1, CrcBits(cc) + rest)) ==
      Meaning([], if CrcValue(cc) == combined then WellEnded else DataErr)
  {
    var e := TrailerReads(d, cc, rest);
  }

  lemma SameStream(k: Crc, d: D, bits: Bitstring, e: D, rest: Bitstring, combined: int)
    requires Go(d, bits) == Go(e, rest)
    ensures Stream(k, d, combined, bits) == Stream(k, e, combined, rest)
  {
  }

  /** After the header and any number of good blocks: their bytes, and then whatever follows them. */
  lemma AfterBlocks(k: Crc, size: int, qs: seq<Piece>, tail: Bitstring) returns (e: D)
    requires 1 <= size <= 9 && forall i {:trigger qs[i]} :: 0 <= i < |qs| ==> GoodPiece(k, size, qs[i])
    ensures e.at == BlkHdr(1) && e.h.size == size
    ensures Stream(k, Init(), 0, HeaderThen(size, BlocksThen(qs, tail))) ==
      Pre(AllBytes(qs), Stream(k, e, Combine(k, 0, qs), tail))
  {
    var blocks := BlocksThen(qs, tail);
    HeaderReads(size, blocks);
    SameStream(k, Init(), HeaderThen(size, blocks), Started(size), blocks, 0);
    e := BlocksBack(k, size, Started(size), 0, qs, tail);
  }

  /** A stream of good blocks gives their bytes, and ends well exactly when its trailer stores the combination of their
      CRCs. */
  lemma TrailerDecides(k: Crc, size: int, qs: seq<Piece>, cc: seq<int>, rest: Bitstring)
    requires 1 <= size <= 9 && forall i {:trigger qs[i]} :: 0 <= i < |qs| ==> GoodPiece(k, size, qs[i])
    requires |cc| == 4 && AreBytes(cc)
    ensures Stream(k, Init(), 0, HeaderThen(size, BlocksThen(qs, EndMagics(1, CrcBits(cc) + rest)))) ==
      Meaning(AllBytes(qs), if CrcValue(cc) == Combine(k, 0, qs) then WellEnded else DataErr)
  {
    var e := AfterBlocks(k, size, qs, EndMagics(1, CrcBits(cc) + rest));
    OnlyTrailer(k, e, Combine(k, 0, qs), cc, rest);
    assert AllBytes(qs) + [] == AllBytes(qs);
  }

  /** A block that stores another CRC than that of its bytes is refused after its bytes have come out, whatever follows
      it. */
  lemma WrongBlockRefused(k: Crc, size: int, qs: seq<Piece>, q: Piece, rest: Bitstring)
    requires 1 <= size <= 9 && forall i {:trigger qs[i]} :: 0 <= i < |qs| ==> GoodPiece(k, size, qs[i])
    requires Stores(size, q) && !RightCrc(k, q)
    ensures Stream(k, Init(), 0, HeaderThen(size, BlocksThen(qs, q.bits + rest))) ==
      Meaning(AllBytes(qs) + Rle.Expanded(q.runs), DataErr)
  {
    var e := AfterBlocks(k, size, qs, q.bits + rest);
    var f := OneBlock(k, size, e, Combine(k, 0, qs), q, rest);
  }

  /** Compressed as header, any number of blocks and trailer, the input comes back, and the stream ends well. */
  lemma StreamComesBack(k: Crc, size: int, qs: seq<Piece>, cc: seq<int>, rest: Bitstring)
    requires 1 <= size <= 9 && forall i {:trigger qs[i]} :: 0 <= i < |qs| ==> GoodPiece(k, size, qs[i])
    requires |cc| == 4 && AreBytes(cc) && CrcValue(cc) == Combine(k, 0, qs)
    ensures Stream(k, Init(), 0, HeaderThen(size, BlocksThen(qs, EndMagics(1, CrcBits(cc) + rest)))) ==
      Meaning(AllBytes(qs), WellEnded)
  {
    TrailerDecides(k, size, qs, cc, rest);
  }

  // ---- the bytes of the format ----

  /** Four bytes are a header: 'B', 'Z', 'h' and a digit from '1' to '9'. */
  predicate IsHeader(b: seq<int>) {
    |b| == 4 && b[0] == 'B' as int && b[1] == 'Z' as int && b[2] == 'h' as int && '1' as int <= b[3] <= '9' as int
  }

  /** The machine reads the first four bytes. */
  lemma FourBytes(b: seq<int>, rest: Bitstring) returns (t: Step, at: Bitstring)
    requires |b| == 4 && AreBytes(b)
    ensures Comes(Goto(Init()), CrcBits(b) + rest, t, at)
    ensures if IsHeader(b) then t == Goto(Started(b[3] - '0' as int)) && at == rest else t.Stop? && t.ret == MagicError
  {
    var d := Init();
    CrcSplit(b, rest);
    var r3 := ToBits(b[3], 8) + rest;
    var r2 := ToBits(b[2], 8) + r3;
    var r1 := ToBits(b[1], 8) + r2;
    HeaderByte(d, 1, b[0], r1);
    t, at := NextMagic(d, 1, b[0]), r1;
    if t.Goto? {
      HeaderByte(t.d, 2, b[1], r2);
      t, at := NextMagic(t.d, 2, b[1]), r2;
      if t.Goto? {
        HeaderByte(t.d, 3, b[2], r3);
        t, at := NextMagic(t.d, 3, b[2]), r3;
        if t.Goto? {
          HeaderByte(t.d, 4, b[3], rest);
          t, at := NextMagic(t.d, 4, b[3]), rest;
        }
      }
    }
  }

  /** They decide whether a stream is one of these at all. */
  lemma HeaderDecides(k: Crc, b: seq<int>, rest: Bitstring)
    requires |b| == 4 && AreBytes(b)
    ensures Stream(k, Init(), 0, CrcBits(b) + rest) ==
      if IsHeader(b) then Stream(k, Started(b[3] - '0' as int), 0, rest) else Meaning([], MagicErr)
  {
    var t, at := FourBytes(b, rest);
    ComesOpens(Goto(Init()), CrcBits(b) + rest, t, at);
    if IsHeader(b) { SameStream(k, Init(), CrcBits(b) + rest, Started(b[3] - '0' as int), rest, 0); }
  }
}
