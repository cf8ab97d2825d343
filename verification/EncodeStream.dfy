/** BZ2_compressBlock as the stream sees it: the header before the first block, a block when there is anything in it,
    the trailer after the last; and what all the bytes written so far mean to a decoder. */
module EncodeStream {
  import opened Sequences
  import opened Rotations
  import opened Bits
  import opened BitIo
  import M = DecodeMachine
  import opened BlockFormat
  import opened SendBlock
  import CB = CompressBlock
  import opened Crcs
  import opened StreamMeaning
  import opened StreamRoundTrip
  import opened MainCompare
  import Rle

  // ---- the CRC as four bytes ----

  /** A CRC is a 32-bit word. */
  ghost predicate GoodCrc(k: Crc) {
    && (forall x {:trigger (k.last)(x)} :: 0 <= (k.last)(x) < WORD)
    && forall x, y {:trigger (k.combine)(x, y)} :: 0 <= (k.combine)(x, y) < WORD
  }

  function CrcBytes(v: int): (c: seq<int>)
    requires 0 <= v < WORD
    ensures |c| == 4
  {
    [v / 16777216, v / 65536 % 256, v / 256 % 256, v % 256]
  }

  lemma CrcBytesValue(v: int)
    requires 0 <= v < WORD
    ensures AreBytes(CrcBytes(v)) && CrcValue(CrcBytes(v)) == v
  {
    var a, b := v / 256, v / 65536;
    assert b == a / 256 && v / 16777216 == b / 256;
    assert v == 256 * a + v % 256 && a == 256 * b + a % 256;
  }

  // ---- the parts of the stream, put together ----

  /** The stream up to the end of some blocks. */
  ghost function Front(size: int, qs: seq<Piece>): Bitstring
    requires 1 <= size <= 9
  {
    HeaderThen(size, BlocksThen(qs, []))
  }

  lemma HeaderJoin(size: int, a: Bitstring, b: Bitstring)
    requires 1 <= size <= 9
    ensures HeaderThen(size, a) + b == HeaderThen(size, a + b)
  {
    var h1, h2, h3, h4 := ToBits(0x42, 8), ToBits(0x5a, 8), ToBits(0x68, 8), ToBits(0x30 + size, 8);
    Assoc(h1, h2 + (h3 + (h4 + a)), b);
    Assoc(h2, h3 + (h4 + a), b);
    Assoc(h3, h4 + a, b);
    Assoc(h4, a, b);
  }

  lemma {:induction false} BlocksJoin(qs: seq<Piece>, rest: Bitstring)
    ensures BlocksThen(qs, []) + rest == BlocksThen(qs, rest)
    decreases |qs|
  {
    if qs == [] {
      assert [] + rest == rest;
    } else {
      BlocksJoin(qs[1..], rest);
      Assoc(qs[0].bits, BlocksThen(qs[1..], []), rest);
    }
  }

  lemma {:induction false} BlocksMore(qs: seq<Piece>, q: Piece)
    ensures BlocksThen(qs + [q], []) == BlocksThen(qs, []) + q.bits
    decreases |qs|
  {
    if qs == [] {
      assert (qs + [q])[1..] == [] && q.bits + [] == q.bits && [] + q.bits == q.bits;
    } else {
      assert (qs + [q])[1..] == qs[1..] + [q];
      BlocksMore(qs[1..], q);
      Assoc(qs[0].bits, BlocksThen(qs[1..], []), q.bits);
    }
  }

  lemma FrontMore(size: int, qs: seq<Piece>, q: Piece)
    requires 1 <= size <= 9
    ensures Front(size, qs) + q.bits == Front(size, qs + [q])
  {
    HeaderJoin(size, BlocksThen(qs, []), q.bits);
    BlocksMore(qs, q);
  }

  lemma {:induction false} AllBytesMore(qs: seq<Piece>, q: Piece)
    ensures AllBytes(qs + [q]) == AllBytes(qs) + Rle.Expanded(q.runs)
    decreases |qs|
  {
    if qs == [] {
      assert (qs + [q])[1..] == [] && Rle.Expanded(q.runs) + [] == Rle.Expanded(q.runs)
        && [] + Rle.Expanded(q.runs) == Rle.Expanded(q.runs);
    } else {
      assert (qs + [q])[1..] == qs[1..] + [q];
      AllBytesMore(qs[1..], q);
      Assoc(Rle.Expanded(qs[0].runs), AllBytes(qs[1..]), Rle.Expanded(q.runs));
    }
  }

  ghost function CrcOf(q: Piece): int { if |q.crc| == 4 then CrcValue(q.crc) else 0 }

  lemma {:induction false} CombineMore(k: Crc, combined: int, qs: seq<Piece>, q: Piece)
    ensures Combine(k, combined, qs + [q]) == (k.combine)(Combine(k, combined, qs), CrcOf(q))
    decreases |qs|
  {
    if qs == [] {
      assert (qs + [q])[1..] == [];
    } else {
      assert (qs + [q])[1..] == qs[1..] + [q];
      CombineMore(k, (k.combine)(combined, CrcOf(qs[0])), qs[1..], q);
    }
  }

  // ---- writing them ----

  method PutHeader(w: Writer, size: int, ghost s: Bitstring)
    requires Wrote(w, s) && 1 <= size <= 9
    modifies w
    ensures Wrote(w, s + HeaderThen(size, []))
  {
    PowWord();
    ghost var h1, h2, h3, h4 := ToBits(0x42, 8), ToBits(0x5a, 8), ToBits(0x68, 8), ToBits(0x30 + size, 8);
    Put(w, 8, 0x42, s);
    Put(w, 8, 0x5a, s + h1);
    Put(w, 8, 0x68, s + h1 + h2);
    Put(w, 8, 0x30 + size, s + h1 + h2 + h3);
    Four(s, h1, h2, h3, h4);
    assert h4 + [] == h4;
  }

  /** The end-of-stream magic number and the combined CRC. */
  method PutTrailer(w: Writer, cc: seq<int>, ghost s: Bitstring)
    requires Wrote(w, s) && |cc| == 4 && AreBytes(cc)
    modifies w
    ensures Wrote(w, s + EndMagics(1, CrcBits(cc)))
  {
    PowWord();
    ghost var cur, r := s, CrcBits(cc);
    for k := 1 to 7
      invariant Wrote(w, cur) && cur + EndMagics(k, r) == s + EndMagics(1, r)
    {
      Assoc(cur, ToBits(M.EndMagic(k), 8), EndMagics(k + 1, r));
      Put(w, 8, M.EndMagic(k), cur);
      cur := cur + ToBits(M.EndMagic(k), 8);
    }
    PutCrc(w, cc, cur);
  }

  lemma {:induction false} EndJoin(k: nat, a: Bitstring, b: Bitstring)
    requires 1 <= k <= 7
    ensures EndMagics(k, a) + b == EndMagics(k, a + b)
    decreases 7 - k
  {
    if k < 7 {
      EndJoin(k + 1, a, b);
      Assoc(ToBits(M.EndMagic(k), 8), EndMagics(k + 1, a), b);
    }
  }

  /** The bytes of the block, and no others, are in use. */
  ghost function UsedBy(data: seq<int>): seq<bool> { seq(256, v => v in data) }

  /** The block with room for its overshoot, and which bytes are in it. */
  method LoadBlock(data: seq<Byte>) returns (block: array<int>, inUse: array<bool>)
    ensures fresh(block) && fresh(inUse) && block.Length == |data| + N_OVERSHOOT && block[..|data|] == data
      && inUse.Length == 256
    ensures inUse[..] == UsedBy(data)
  {
    block := new int[|data| + N_OVERSHOOT](_ => 0);
    inUse := new bool[256](_ => false);
    for i := 0 to |data|
      modifies block, inUse
      invariant forall k {:trigger data[k]} :: 0 <= k < i ==> inUse[data[k]] && block[k] == data[k]
      invariant forall v {:trigger inUse[v]} :: 0 <= v < 256 && inUse[v] ==> v in data
    {
      block[i] := data[i];
      inUse[data[i]] := true;
    }
  }

  /** A block that is not empty, in arrays of its size. */
  method WriteBlock(w: Writer, data: seq<Byte>, crc: seq<int>, ghost size: int, ghost s: Bitstring)
      returns (ghost bits: Bitstring)
    requires data != [] && |data| <= 100000 * size && 1 <= size <= 9 && |crc| == 4 && AreBytes(crc) && Wrote(w, s)
    modifies w
    ensures Wrote(w, s + bits) && CB.DecodesTo(bits, data, size, crc) && CB.Lays(bits, data, UsedBy(data), crc)
  {
    var n := |data|;
    var block, inUse := LoadBlock(data);
    var ptr, eclass := new int[n], new int[n];
    var quadrant, ftab := new int[n + N_OVERSHOOT], new int[65537];
    var bhtab := new bool[n + 96];
    forall i {:trigger data[i]} | 0 <= i < |data| ensures inUse[data[i]] { assert inUse[..][data[i]]; }
    bits := CB.CompressBlock(w, ptr, block, quadrant, ftab, eclass, bhtab, inUse, crc, n, 30, size, data, s);
  }

  // ---- block after block ----

  /** What the encoder carries from block to block: the bit buffer and the combined CRC. */
  datatype Enc = Enc(bsBuff: int, bsLive: int, combined: int)

  ghost predicate GoodPieces(k: Crc, size: int, qs: seq<Piece>) {
    forall i {:trigger qs[i]} :: 0 <= i < |qs| ==> GoodPiece(k, size, qs[i]) && LaidPiece(qs[i])
  }

  lemma GoodPiecesMore(k: Crc, size: int, qs: seq<Piece>, q: Piece)
    requires GoodPieces(k, size, qs) && GoodPiece(k, size, q) && LaidPiece(q)
    ensures GoodPieces(k, size, qs + [q])
  {
  }

  /** It is laid out as a block that stores its runs. */
  ghost predicate LaidPiece(q: Piece) {
    CB.Lays(q.bits, Rle.Encoded(q.runs), UsedBy(Rle.Encoded(q.runs)), q.crc)
  }

  /** made are the bytes written so far and live the bits still in the buffer; together they are the header and the
      blocks qs. */
  ghost predicate Coding(k: Crc, size: int, first: bool, e: Enc, live: Bitstring, qs: seq<Piece>, made: seq<int>) {
    && 1 <= size <= 9 && GoodCrc(k) && AreBytes(made) && GoodPieces(k, size, qs) && 0 <= e.combined < WORD
    && e.combined == Combine(k, 0, qs)
    && e.bsLive == |live| && TopWord(e.bsBuff, live)
    && (if first then made == [] && live == [] && qs == [] else ByteBits(made) + live == Front(size, qs))
  }

  lemma CodingFirst(k: Crc, size: int)
    requires 1 <= size <= 9 && GoodCrc(k)
    ensures Coding(k, size, true, Enc(0, 0, 0), [], [], [])
  {
    ZeroBits(32);
    assert [] + Zeros(32) == Zeros(32);
  }

  /** The writer goes on where it stopped; its bytes were given out. */
  method Resume(e: Enc, ghost live: Bitstring) returns (w: Writer)
    requires e.bsLive == |live| && TopWord(e.bsBuff, live)
    ensures fresh(w) && Wrote(w, live)
  {
    w := new Writer();
    w.bsBuff, w.bsLive, w.live := e.bsBuff, e.bsLive, live;
    Resumed(w, live);
  }

  lemma Resumed(w: Writer, live: Bitstring)
    requires w.zbits == [] && w.live == live && w.bsLive == |live| && TopWord(w.bsBuff, live)
    ensures Wrote(w, live)
  {
    assert ByteBits([]) + live == live;
    WroteOpens(w, live);
  }

  /** Bits written after made: those of the writer. */
  lemma MadeMore(made: seq<int>, bytes: seq<int>, was: Bitstring, live: Bitstring, x: Bitstring)
    requires AreBytes(made) && AreBytes(bytes) && ByteBits(bytes) + live == was + x
    ensures AreBytes(made + bytes) && ByteBits(made + bytes) + live == (ByteBits(made) + was) + x
  {
    ByteBitsAppend(made, bytes);
    Assoc(ByteBits(made), ByteBits(bytes), live);
    Assoc(ByteBits(made), was, x);
  }

  /** A block that is not empty. */
  method WriteData(w: Writer, k: Crc, size: int, data: seq<Byte>, crc: int, ghost runs: seq<Rle.Pair>,
      ghost s: Bitstring, ghost qs: seq<Piece>)
      returns (ghost bits: Bitstring, ghost qs': seq<Piece>)
    requires Wrote(w, s) && 1 <= size <= 9 && GoodCrc(k) && GoodPieces(k, size, qs) && 0 < |data| <= 100000 * size
    requires Rle.Runs(runs) && data == Rle.Encoded(runs) && runs != []
      && crc == (k.last)(Fold(k, k.init, Rle.Expanded(runs)))
    modifies w
    ensures Wrote(w, s + bits) && GoodPieces(k, size, qs') && AllBytes(qs') == AllBytes(qs) + Rle.Expanded(runs)
    ensures Combine(k, 0, qs') == (k.combine)(Combine(k, 0, qs), crc)
    ensures forall f: Bitstring {:trigger f + bits} :: f == Front(size, qs) ==> f + bits == Front(size, qs')
  {
    CrcBytesValue(crc);
    bits := WriteBlock(w, data, CrcBytes(crc), size, s);
    ghost var q := Piece(bits, CrcBytes(crc), runs);
    qs' := qs + [q];
    GoodPiecesMore(k, size, qs, q);
    AllBytesMore(qs, q);
    CombineMore(k, 0, qs, q);
    FrontMore(size, qs, q);
  }

  /** The header on the first call, and a block if there is one. */
  method WriteChunk(w: Writer, k: Crc, size: int, first: bool, data: seq<Byte>, crc: int, ghost runs: seq<Rle.Pair>,
      ghost live: Bitstring, ghost qs: seq<Piece>)
      returns (ghost x: Bitstring, ghost qs': seq<Piece>)
    requires Wrote(w, live) && 1 <= size <= 9 && GoodCrc(k) && GoodPieces(k, size, qs) && |data| <= 100000 * size
    requires Rle.Runs(runs) && data == Rle.Encoded(runs) && (data == [] <==> runs == [])
      && crc == (k.last)(Fold(k, k.init, Rle.Expanded(runs)))
    requires first ==> qs == [] && live == []
    modifies w
    ensures Wrote(w, live + x) && GoodPieces(k, size, qs') && AllBytes(qs') == AllBytes(qs) + Rle.Expanded(runs)
    ensures Combine(k, 0, qs') == if data == [] then Combine(k, 0, qs) else (k.combine)(Combine(k, 0, qs), crc)
    ensures if first then x == Front(size, qs') else forall f: Bitstring {:trigger f + x} :: f == Front(size, qs) ==>
      f + x == Front(size, qs')
  {
    x, qs' := [], qs;
    assert live + [] == live;
    if first {
      PutHeader(w, size, live);
      x := HeaderThen(size, []);
      assert [] + x == x;
    }
    if data != [] {
      ghost var bits;
      bits, qs' := WriteData(w, k, size, data, crc, runs, live + x, qs);
      Assoc(live, x, bits);
      assert [] + bits == bits;
      x := x + bits;
    } else {
      assert Rle.Expanded(runs) == [] && AllBytes(qs) + [] == AllBytes(qs);
      forall f: Bitstring {:trigger f + x} | !first && f == Front(size, qs)
        ensures f + x == Front(size, qs')
      {
        assert f + [] == f;
      }
    }
  }

  /** BZ2_compressBlock when it is not the last one. */
  method EncodeChunk(k: Crc, size: int, first: bool, e: Enc, data: seq<Byte>, crc: int, ghost runs: seq<Rle.Pair>,
      ghost live: Bitstring, ghost qs: seq<Piece>, ghost made: seq<int>)
      returns (e': Enc, bytes: seq<int>, ghost live': Bitstring, ghost qs': seq<Piece>)
    requires Coding(k, size, first, e, live, qs, made) && |data| <= 100000 * size
    requires Rle.Runs(runs) && data == Rle.Encoded(runs) && (data == [] <==> runs == [])
      && crc == (k.last)(Fold(k, k.init, Rle.Expanded(runs)))
    ensures Coding(k, size, false, e', live', qs', made + bytes) && AllBytes(qs') == AllBytes(qs) + Rle.Expanded(runs)
  {
    var w := Resume(e, live);
    ghost var x;
    x, qs' := WriteChunk(w, k, size, first, data, crc, runs, live, qs);
    WroteOpens(w, live + x);
    bytes, live' := w.zbits, w.live;
    MadeMore(made, bytes, live, live', x);
    e' := Enc(w.bsBuff, w.bsLive, if data == [] then e.combined else (k.combine)(e.combined, crc));
    if first { assert ByteBits(made) + live == [] && [] + x == x; }
  }

  /** The bytes are the header, these blocks, the trailer with these bytes as combined CRC, and pad zero bits. */
  ghost predicate Formatted(k: Crc, size: int, qs: seq<Piece>, cc: seq<int>, pad: nat, made: seq<int>) {
    && 1 <= size <= 9 && GoodPieces(k, size, qs) && |cc| == 4 && AreBytes(cc) && CrcValue(cc) == Combine(k, 0, qs)
    && pad < 8 && AreBytes(made)
    && ByteBits(made) == HeaderThen(size, BlocksThen(qs, EndMagics(1, CrcBits(cc) + Zeros(pad))))
  }

  /** The bytes are a whole stream of blocks that hold raw. */
  ghost predicate IsFile(k: Crc, size: int, raw: seq<int>, made: seq<int>) {
    exists qs, cc, pad: nat {:trigger Formatted(k, size, qs, cc, pad, made)} ::
      Formatted(k, size, qs, cc, pad, made) && AllBytes(qs) == raw
  }

  /** And when it is: what has been written is a whole stream. */
  method EncodeLast(k: Crc, size: int, first: bool, e: Enc, data: seq<Byte>, crc: int, ghost runs: seq<Rle.Pair>,
      ghost live: Bitstring, ghost qs: seq<Piece>, ghost made: seq<int>)
      returns (bytes: seq<int>, ghost qs': seq<Piece>)
    requires Coding(k, size, first, e, live, qs, made) && |data| <= 100000 * size
    requires Rle.Runs(runs) && data == Rle.Encoded(runs) && (data == [] <==> runs == [])
      && crc == (k.last)(Fold(k, k.init, Rle.Expanded(runs)))
    ensures AllBytes(qs') == AllBytes(qs) + Rle.Expanded(runs) && IsFile(k, size, AllBytes(qs'), made + bytes)
  {
    var w := Resume(e, live);
    ghost var x;
    x, qs' := WriteChunk(w, k, size, first, data, crc, runs, live, qs);
    if first { assert ByteBits(made) + live == [] && [] + x == x; }
    assert (ByteBits(made) + live) + x == Front(size, qs');
    var combined := if data == [] then e.combined else (k.combine)(e.combined, crc);
    CrcBytesValue(combined);
    ghost var t := EndMagics(1, CrcBits(CrcBytes(combined)));
    PutTrailer(w, CrcBytes(combined), live + x);
    WroteOpens(w, live + x + t);
    var pad := w.Finish();
    bytes := w.zbits;
    WholeStream(k, size, qs', CrcBytes(combined), made, bytes, live, x, t, pad);
  }

  lemma WholeStream(k: Crc, size: int, qs: seq<Piece>, cc: seq<int>, made: seq<int>, bytes: seq<int>, live: Bitstring,
      x: Bitstring, t: Bitstring, pad: nat)
    requires 1 <= size <= 9 && GoodPieces(k, size, qs) && |cc| == 4 && AreBytes(cc) && CrcValue(cc) == Combine(k, 0, qs)
    requires AreBytes(made) && AreBytes(bytes) && t == EndMagics(1, CrcBits(cc))
      && (ByteBits(made) + live) + x == Front(size, qs)
    requires ByteBits(bytes) == live + x + t + Zeros(pad)
    requires pad < 8
    ensures IsFile(k, size, AllBytes(qs), made + bytes)
  {
    var z := Zeros(pad);
    ByteBitsAppend(made, bytes);
    Flatten(ByteBits(made), live, x, t, z);
    EndJoin(1, CrcBits(cc), z);
    HeaderJoin(size, BlocksThen(qs, []), t + z);
    BlocksJoin(qs, t + z);
    assert Formatted(k, size, qs, cc, pad, made + bytes);
  }

  /** What a stream means to the decoder. */
  lemma FileMeans(k: Crc, size: int, raw: seq<int>, made: seq<int>)
    requires IsFile(k, size, raw, made)
    ensures AreBytes(made) && Stream(k, M.Init(), 0, ByteBits(made)) == Meaning(raw, WellEnded)
  {
    var qs, cc, pad: nat :| Formatted(k, size, qs, cc, pad, made) && AllBytes(qs) == raw;
    StreamComesBack(k, size, qs, cc, Zeros(pad));
  }

  lemma Flatten(m: Bitstring, l: Bitstring, x: Bitstring, t: Bitstring, z: Bitstring)
    ensures m + (l + x + t + z) == ((m + l) + x) + (t + z)
  {
    Assoc(l + x, t, z);
    Assoc(m, l + x, t + z);
    Assoc(m, l, x);
  }
}
