/** What a compressed stream decodes to, as a function of its bits alone: the measure against which every
    way of feeding it piecemeal is held. */
module StreamMeaning {
  import opened Sequences
  import opened Counting
  import opened Bits
  import opened DecodeMachine
  import opened BlockRoundTrip
  import opened Unpack
  import Rle
  import opened Crcs

  /** How decoding ends: the bits run out, the stream ends well, or it is refused. Overrun is the refusal of a block
      that ends in the middle of a run. Randomised blocks are outside this model. */
  datatype Status = Wants | WellEnded | DataErr | Overrun | MagicErr | Randomised

  datatype Meaning = Meaning(bytes: seq<int>, status: Status)

  ghost function Pre(out: seq<int>, m: Meaning): Meaning { m.(bytes := out + m.bytes) }

  ghost predicate HasBlock(e: D) { |e.inUse| == 256 && 0 <= e.h.origPtr < |e.y.out| }

  /** The received column of a block that has been read. */
  ghost function ColumnFor(e: D): (c: Column)
    requires HasBlock(e)
    ensures IsColumn(c) && c.l == ColumnBytes(e.inUse, e.y.out) && |c.l| == |e.y.out|
  {
    var l := ColumnBytes(e.inUse, e.y.out);
    Column(l, TInverse(l), TInverse(l)[e.h.origPtr])
  }

  ghost function BlockBytes(e: D): seq<int>
    requires HasBlock(e)
  {
    Rle.Rest(Fetches(ColumnFor(e)), |e.y.out|, 0)
  }

  ghost function BlockEnds(e: D): nat
    requires HasBlock(e)
  {
    Rle.EndsAt(Fetches(ColumnFor(e)), |e.y.out|, 0)
  }

  /** The meaning of the bits from state d on, at a label where it reads. */
  ghost function Stream(k: Crc, d: D, combined: int, bits: Bitstring): Meaning
    decreases |bits|, 0
  {
    match Go(d, bits)
    case Waiting(_, _) => Meaning([], Wants)
    case Returned(ret, e, rest) =>
      match ret
      case Ok =>
        if !HasBlock(e) then Meaning([], DataErr)
        else if e.h.randomised != 0 then Meaning([], Randomised)
        else Emit(k, e, combined, BlockBytes(e), BlockEnds(e) > |e.y.out|, k.init, rest)
      case StreamEnd => Meaning([], if combined == e.h.combinedCRC then WellEnded else DataErr)
      case MagicError => Meaning([], MagicErr)
      case DataFault => Meaning([], DataErr)
  }

  /** The meaning while a block comes out, with left still to come and the CRC so far. */
  ghost function Emit(k: Crc, e: D, combined: int, left: seq<int>, bad: bool, crc: int, rest: Bitstring): Meaning
    decreases |rest|, 1
  {
    var sum := (k.last)(Fold(k, crc, left));
    if bad then Meaning(left, Overrun)
    else if sum != e.h.blockCRC then Meaning(left, DataErr)
    else Pre(left, Stream(k, e.(at := BlkHdr(1)), (k.combine)(combined, sum), rest))
  }

  /** Where a decoder stands: reading at d, or putting out a block, or at the end. */
  datatype Stand = Reads(d: D, combined: int) | Emits(e: D, combined: int, left: seq<int>, bad: bool, crc: int)
      | Ends(status: Status)

  ghost function Now(k: Crc, at: Stand, bits: Bitstring): Meaning {
    match at
    case Reads(d, combined) => Stream(k, d, combined, bits)
    case Emits(e, combined, left, bad, crc) => Emit(k, e, combined, left, bad, crc, bits)
    case Ends(status) => Meaning([], status)
  }

  /** After the bits fed, with coming of them not used yet, out and the stand add up to the meaning of the
      stream, whatever comes later. */
  ghost predicate Agrees(k: Crc, fed: Bitstring, out: seq<int>, at: Stand, coming: Bitstring) {
    forall future: Bitstring {:trigger fed + future} ::
      Stream(k, Init(), 0, fed + future) == Pre(out, Now(k, at, coming + future))
  }

  lemma AgreesFirst(k: Crc)
    ensures Agrees(k, [], [], Reads(Init(), 0), [])
  {
    forall future: Bitstring {:trigger [] + future}
      ensures Stream(k, Init(), 0, [] + future) == Pre([], Now(k, Reads(Init(), 0), [] + future))
    {
      PreNothing(Stream(k, Init(), 0, [] + future));
    }
  }

  lemma PreNothing(m: Meaning)
    ensures Pre([], m) == m
  {
  }

  lemma PrePre(a: seq<int>, b: seq<int>, m: Meaning)
    ensures Pre(a, Pre(b, m)) == Pre(a + b, m)
  {
  }

  lemma AgreesFed(k: Crc, fed: Bitstring, out: seq<int>, at: Stand, coming: Bitstring, x: Bitstring)
    requires Agrees(k, fed, out, at, coming)
    ensures Agrees(k, fed + x, out, at, coming + x)
  {
    forall future: Bitstring {:trigger fed + x + future}
      ensures Stream(k, Init(), 0, fed + x + future) == Pre(out, Now(k, at, coming + x + future))
    {
      FedLater(k, fed, out, at, coming, x, future);
    }
  }

  lemma FedLater(k: Crc, fed: Bitstring, out: seq<int>, at: Stand, coming: Bitstring, x: Bitstring, future: Bitstring)
    requires Agrees(k, fed, out, at, coming)
    ensures Stream(k, Init(), 0, fed + x + future) == Pre(out, Now(k, at, coming + x + future))
  {
    Assoc(fed, x, future);
    Assoc(coming, x, future);
    assert Stream(k, Init(), 0, fed + (x + future)) == Pre(out, Now(k, at, coming + (x + future)));
  }

  /** A step of the decoder keeps the agreement if it keeps the meaning of all that can follow. */
  lemma AgreesStep(k: Crc, fed: Bitstring, out: seq<int>, at: Stand, coming: Bitstring, more: seq<int>, at2: Stand,
      coming2: Bitstring)
    requires Agrees(k, fed, out, at, coming)
    requires forall future: Bitstring {:trigger coming + future} ::
      Now(k, at, coming + future) == Pre(more, Now(k, at2, coming2 + future))
    ensures Agrees(k, fed, out + more, at2, coming2)
  {
    forall future: Bitstring {:trigger fed + future}
      ensures Stream(k, Init(), 0, fed + future) == Pre(out + more, Now(k, at2, coming2 + future))
    {
      assert Now(k, at, coming + future) == Pre(more, Now(k, at2, coming2 + future));
      PrePre(out, more, Now(k, at2, coming2 + future));
    }
  }

  lemma StillReads(k: Crc, d: D, combined: int, coming: Bitstring, e: D, rest: Bitstring)
    requires Go(d, coming) == Waiting(e, rest)
    ensures forall future: Bitstring {:trigger coming + future} ::
              Now(k, Reads(d, combined), coming + future) == Pre([], Now(k, Reads(e, combined), rest + future))
  {
    forall future: Bitstring {:trigger coming + future}
      ensures Now(k, Reads(d, combined), coming + future) == Pre([], Now(k, Reads(e, combined), rest + future))
    {
      StillReadsAt(k, d, combined, coming, e, rest, future);
    }
  }

  lemma StillReadsAt(k: Crc, d: D, combined: int, coming: Bitstring, e: D, rest: Bitstring, future: Bitstring)
    requires Go(d, coming) == Waiting(e, rest)
    ensures Now(k, Reads(d, combined), coming + future) == Pre([], Now(k, Reads(e, combined), rest + future))
  {
    RunResumes(d, coming, future);
    PreNothing(Stream(k, e, combined, rest + future));
  }

  lemma ReadsOn(k: Crc, fed: Bitstring, out: seq<int>, d: D, combined: int, coming: Bitstring, e: D, rest: Bitstring)
    requires Agrees(k, fed, out, Reads(d, combined), coming) && Go(d, coming) == Waiting(e, rest)
    ensures Agrees(k, fed, out, Reads(e, combined), rest) && Go(e, rest) == Waiting(e, rest)
  {
    StillReads(k, d, combined, coming, e, rest);
    AgreesStep(k, fed, out, Reads(d, combined), coming, [], Reads(e, combined), rest);
    assert out + [] == out;
    WaitsOn(d, coming, e, rest);
  }

  lemma WaitsOn(d: D, coming: Bitstring, e: D, rest: Bitstring)
    requires Go(d, coming) == Waiting(e, rest)
    ensures Go(e, rest) == Waiting(e, rest)
  {
    RunResumes(d, coming, []);
    assert coming + [] == coming && rest + [] == rest;
  }

  /** Where the decoder stands after BZ2_decompress has returned. */
  ghost function Returns(k: Crc, ret: Ret, e: D, combined: int): Stand {
    match ret
    case Ok =>
      if !HasBlock(e) then Ends(DataErr)
      else if e.h.randomised != 0 then Ends(Randomised)
      else Emits(e, combined, BlockBytes(e), BlockEnds(e) > |e.y.out|, k.init)
    case StreamEnd => Ends(if combined == e.h.combinedCRC then WellEnded else DataErr)
    case MagicError => Ends(MagicErr)
    case DataFault => Ends(DataErr)
  }

  lemma ReadsReturn(k: Crc, fed: Bitstring, out: seq<int>, d: D, combined: int, coming: Bitstring, ret: Ret, e: D,
      rest: Bitstring)
    requires Agrees(k, fed, out, Reads(d, combined), coming) && Go(d, coming) == Returned(ret, e, rest)
    ensures Agrees(k, fed, out, Returns(k, ret, e, combined), rest)
  {
    var at2 := Returns(k, ret, e, combined);
    forall future: Bitstring {:trigger coming + future}
      ensures Now(k, Reads(d, combined), coming + future) == Pre([], Now(k, at2, rest + future))
    {
      RunResumes(d, coming, future);
      PreNothing(Now(k, at2, rest + future));
    }
    AgreesStep(k, fed, out, Reads(d, combined), coming, [], at2, rest);
    assert out + [] == out;
  }

  lemma EmitsSome(k: Crc, fed: Bitstring, out: seq<int>, e: D, combined: int, left: seq<int>, bad: bool, crc: int,
      coming: Bitstring, j: nat)
    requires Agrees(k, fed, out, Emits(e, combined, left, bad, crc), coming) && j <= |left|
    ensures Agrees(k, fed, out + left[..j], Emits(e, combined, left[j..], bad, Fold(k, crc, left[..j])), coming)
  {
    var x, y := left[..j], left[j..];
    assert left == x + y;
    var at, at2 := Emits(e, combined, left, bad, crc), Emits(e, combined, y, bad, Fold(k, crc, x));
    FoldAppend(k, crc, x, y);
    forall future: Bitstring {:trigger coming + future}
      ensures Now(k, at, coming + future) == Pre(x, Now(k, at2, coming + future))
    {
      var sum := (k.last)(Fold(k, crc, left));
      if !(bad || sum != e.h.blockCRC) {
        PrePre(x, y, Stream(k, e.(at := BlkHdr(1)), (k.combine)(combined, sum), coming + future));
      }
    }
    AgreesStep(k, fed, out, at, coming, x, at2, coming);
  }

  /** A block is out: its CRC decides. */
  lemma EmitsDone(k: Crc, fed: Bitstring, out: seq<int>, e: D, combined: int, crc: int, coming: Bitstring)
    requires Agrees(k, fed, out, Emits(e, combined, [], false, crc), coming)
    ensures var sum := (k.last)(crc);
            Agrees(k, fed, out,
              if sum != e.h.blockCRC then Ends(DataErr) else Reads(e.(at := BlkHdr(1)), (k.combine)(combined, sum)),
              coming)
  {
    var sum := (k.last)(crc);
    var at, at2 := Emits(e, combined, [], false, crc),
      if sum != e.h.blockCRC then Ends(DataErr) else Reads(e.(at := BlkHdr(1)), (k.combine)(combined, sum));
    forall future: Bitstring {:trigger coming + future}
      ensures Now(k, at, coming + future) == Pre([], Now(k, at2, coming + future))
    {
      PreNothing(Now(k, at2, coming + future));
    }
    AgreesStep(k, fed, out, at, coming, [], at2, coming);
    assert out + [] == out;
  }

  /** The whole meaning, when no further input can change it. */
  lemma Settled(k: Crc, fed: Bitstring, out: seq<int>, status: Status, coming: Bitstring, future: Bitstring)
    requires Agrees(k, fed, out, Ends(status), coming)
    ensures Stream(k, Init(), 0, fed + future) == Meaning(out, status)
  {
    assert out + [] == out;
  }

  lemma OnlyWants(k: Crc, fed: Bitstring, out: seq<int>, d: D, combined: int, coming: Bitstring)
    requires Agrees(k, fed, out, Reads(d, combined), coming) && Go(d, coming).Waiting?
    ensures Stream(k, Init(), 0, fed) == Meaning(out, Wants)
  {
    assert fed + [] == fed && coming + [] == coming && out + [] == out;
  }

  /** In a corrupt block the meaning is an error after all of it, and nothing later matters. */
  lemma BadBlock(k: Crc, fed: Bitstring, out: seq<int>, e: D, combined: int, left: seq<int>, crc: int,
      coming: Bitstring, future: Bitstring)
    requires Agrees(k, fed, out, Emits(e, combined, left, true, crc), coming)
    ensures Stream(k, Init(), 0, fed + future) == Meaning(out + left, Overrun)
  {
  }
}
