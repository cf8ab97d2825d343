/** BZ2_bzDecompress: the stream may come in any pieces and go out into any pieces of space; what comes out
    is the meaning of the stream. */
module Decompressor {
  import opened Rotations
  import opened Counting
  import opened InverseBwt
  import opened Bits
  import opened BitIo
  import M = DecodeMachine
  import opened BlockRoundTrip
  import opened Unpack
  import opened Crcs
  import opened StreamMeaning

  datatype Reply = ROk | RStreamEnd | RDataError | RMagicError | RSequenceError | RRandomised

  // ---- setting up a block for output ----

  /** The column goes into tt and is counted. */
  method FillColumn(tt: array<int>, l: seq<Byte>) returns (unzftab: array<int>)
    requires |l| <= tt.Length
    modifies tt
    ensures fresh(unzftab) && unzftab.Length == 256 && tt[..|l|] == l
    ensures forall c :: 0 <= c < 256 ==> unzftab[c] == Occ(l, c, |l|)
  {
    unzftab := new int[256](_ => 0);
    for i := 0 to |l|
      modifies tt, unzftab
      invariant forall k {:trigger tt[k]} :: 0 <= k < i ==> tt[k] == l[k]
      invariant forall c {:trigger unzftab[c]} :: 0 <= c < 256 ==> unzftab[c] == Occ(l, c, i)
    {
      tt[i] := l[i];
      unzftab[l[i]] := unzftab[l[i]] + 1;
    }
  }

  /** The FAST vector of a block, and the place where its output begins. */
  method SetUp(tt: array<int>, l: seq<Byte>, origPtr: nat, ghost c: Column) returns (p: Place)
    requires l != [] && |l| <= tt.Length && origPtr < |l| && c == Column(l, TInverse(l), TInverse(l)[origPtr])
      && IsColumn(c)
    modifies tt
    ensures FastFor(tt[..], c, tt.Length) && p == Begin(c)
  {
    ghost var inv := TInverse(l);
    var unzftab := FillColumn(tt, l);
    var cftab := MakeCftab(unzftab, l);
    BuildFast(tt, cftab, |l|, l, inv);
    assert tt[origPtr] == tt[..][origPtr];
    var low, tPos := SplitCell(tt[origPtr], l[origPtr], inv[origPtr]);
    var k0, row := Fetch(tt, tPos, tt.Length, c, Fetches(c), 0);
    FeedsRow(tt[..], c, tt.Length, Fetches(c), 1, row);
    p := Place(0, 0, k0, 1, row);
  }

  lemma FeedsRow(tt: seq<int>, c: Column, maxBlock: int, b: seq<int>, j: int, row: int)
    requires FeedsFast(tt, c, maxBlock, b, j, row)
    ensures IsColumn(c) && 0 <= j && row == RowAt(c, j)
  {
    assert Fed(b, 0);
  }

  /** The output side of a block in progress: where it is and what it still owes. */
  ghost predicate InBlock(tt: seq<int>, c: Column, p: Place, left: seq<int>, ends: nat, n: nat) {
    forall u {:trigger Open(p, u)} :: Open(p, u) ==> PutsOut(tt, c, p, left, ends, n)
  }

  ghost predicate PutsOut(tt: seq<int>, c: Column, p: Place, left: seq<int>, ends: nat, n: nat) {
    IsColumn(c) && |c.l| == n && Owes(c, p, left, ends) && FeedsFast(tt, c, |tt|, Fetches(c), p.used, p.row)
  }

  lemma InBlockOpens(tt: seq<int>, c: Column, p: Place, left: seq<int>, ends: nat, n: nat)
    ensures InBlock(tt, c, p, left, ends, n) <==> PutsOut(tt, c, p, left, ends, n)
  {
    assert Open(p, 0);
  }

  type Judge = (Crc, Bitstring, seq<int>, Stand, Bitstring) -> bool

  /** Agrees, stated through any function that judges it, so that methods which only pass it on never look
      into it. */
  ghost predicate Keeps(k: Crc, fed: Bitstring, out: seq<int>, at: Stand, coming: Bitstring) {
    forall f: Judge {:trigger Fair(f)} :: Fair(f) ==> f(k, fed, out, at, coming)
  }

  ghost predicate Fair(f: Judge) {
    forall u {:trigger Seen(f, u)} :: Seen(f, u) ==>
      forall k, fed, out, at, coming {:trigger f(k, fed, out, at, coming)} ::
        f(k, fed, out, at, coming) == Agrees(k, fed, out, at, coming)
  }

  ghost predicate Seen(f: Judge, u: int) { true }

  lemma KeepsOpens(k: Crc, fed: Bitstring, out: seq<int>, at: Stand, coming: Bitstring)
    ensures Keeps(k, fed, out, at, coming) <==> Agrees(k, fed, out, at, coming)
  {
    var f := (k: Crc, fed: Bitstring, out: seq<int>, at: Stand, coming: Bitstring) => Agrees(k, fed, out, at, coming);
    assert Fair(f);
    if Agrees(k, fed, out, at, coming) {
      forall f: Judge {:trigger Fair(f)} | Fair(f) ensures f(k, fed, out, at, coming) { assert Seen(f, 0); }
    }
  }

  /** The reader has these bits to give; closed likewise. */
  ghost predicate Feeds(r: Reader, coming: Bitstring)
    reads r
  {
    forall u {:trigger Fed(coming, u)} :: Fed(coming, u) ==> r.Valid() && r.Coming() == coming
  }

  lemma FeedsOpens(r: Reader, coming: Bitstring)
    ensures Feeds(r, coming) <==> r.Valid() && r.Coming() == coming
  {
    assert Fed(coming, 0);
  }

  /** Where a decoder with these variables stands. */
  ghost function StandOf(d: M.D, combined: int, left: seq<int>, ends: nat, crc: int): Stand {
    if d.at == M.Output then Emits(d, combined, left, ends > |d.y.out|, crc)
    else if d.at == M.Idle then Ends(WellEnded)
    else Reads(d, combined)
  }

  /** Prepares the output of a block that has been read. */
  method PrepareBlock(tt0: array<int>, e: M.D, k: Crc, ghost fed: Bitstring, ghost out: seq<int>, ghost combined: int,
      ghost coming: Bitstring)
      returns (tt: array<int>, p: Place, ghost c: Column, ghost left: seq<int>, ghost ends: nat)
    requires M.Sound(e) && HasBlock(e) && e.at == M.Output && e.h.randomised == 0
    requires Keeps(k, fed, out, Returns(k, M.Ok, e, combined), coming)
    modifies tt0
    ensures InBlock(tt[..], c, p, left, ends, |e.y.out|) && (fresh(tt) || tt == tt0)
    ensures Keeps(k, fed, out, StandOf(e, combined, left, ends, k.init), coming)
  {
    BlockStands(k, e, combined);
    var l := ColumnBytes(e.inUse, e.y.out);
    c, left, ends := ColumnFor(e), BlockBytes(e), BlockEnds(e);
    tt := tt0;
    if tt.Length != M.Limit(e) { tt := new int[M.Limit(e)]; }
    p := SetUp(tt, l, e.h.origPtr, c);
    BeginLeft(c);
    OwesOpens(c, p, BlockBytes(e), BlockEnds(e));
    InBlockOpens(tt[..], c, p, BlockBytes(e), BlockEnds(e), |e.y.out|);
  }

  /** unRLE_obuf_to_output_FAST on a block in progress. */
  method UnRle(tt: array<int>, p: Place, room: nat, n: nat, ghost c: Column, ghost left: seq<int>, ghost ends: nat)
      returns (corrupt: bool, q: Place, more: seq<int>)
    requires InBlock(tt[..], c, p, left, ends, n)
    ensures corrupt ==> ends > n
    ensures !corrupt ==>
      |more| <= room && |more| <= |left| && more == left[..|more|] && InBlock(tt[..], c, q, left[|more|..], ends, n)
    ensures !corrupt ==> if q.used == n + 1 && q.len == 0 then left[|more|..] == [] && ends == n else |more| == room
  {
    InBlockOpens(tt[..], c, p, left, ends, n);
    corrupt, q, more := Fast(tt, p, room, n, tt.Length, c, Fetches(c), left, ends);
    if !corrupt {
      OwesEnd(c, q, left[|more|..], ends);
      InBlockOpens(tt[..], c, q, left[|more|..], ends, n);
    }
  }

  /** The variables of DState that the output side and the loop use, apart from the FAST vector. */
  datatype Vars = Vars(d: M.D, combined: int, crc: int, p: Place, out: seq<int>)

  /** The column of the block that is coming out, what is left of it, and all bits fed and not yet used. */
  datatype Trail = Trail(c: Column, left: seq<int>, ends: nat, fed: Bitstring, coming: Bitstring)

  ghost predicate OnTrack(k: Crc, v: Vars, g: Trail, tt: seq<int>) {
    && M.Sound(v.d) && Keeps(k, g.fed, v.out, StandOf(v.d, v.combined, g.left, g.ends, v.crc), g.coming)
    && (v.d.at == M.Output ==> HasBlock(v.d) && InBlock(tt, g.c, v.p, g.left, g.ends, |v.d.y.out|))
  }

  /** The meaning is settled, whatever comes later. */
  ghost predicate Means(k: Crc, fed: Bitstring, out: seq<int>, status: Status) {
    forall future: Bitstring {:trigger fed + future} :: Stream(k, M.Init(), 0, fed + future) == Meaning(out, status)
  }

  /** The stream is refused, exactly after what has come out; only a block that ends in the middle of a run may owe
      some bytes. */
  ghost predicate Refused(k: Crc, fed: Bitstring, out: seq<int>) {
    Means(k, fed, out, DataErr) || exists more :: Means(k, fed, out + more, Overrun)
  }

  /** All of a block is out: its CRC decides whether the stream goes on. */
  method CheckBlock(v: Vars, k: Crc, ghost g: Trail, ghost tt: seq<int>) returns (ok: bool, w: Vars)
    requires OnTrack(k, v, g, tt) && v.d.at == M.Output && g.left == [] && g.ends == |v.d.y.out|
    ensures w.out == v.out && (ok ==> OnTrack(k, w, g, tt) && w.d.at == M.BlkHdr(1))
      && (!ok ==> Means(k, g.fed, v.out, DataErr))
  {
    BlockOut(k, g.fed, v.out, v.d, v.combined, v.crc, g.coming);
    var sum := (k.last)(v.crc);
    ok, w := sum == v.d.h.blockCRC, v;
    if ok {
      w := v.(combined := (k.combine)(v.combined, sum), d := v.d.(at := M.BlkHdr(1)));
    } else {
      EndsMeans(k, g.fed, v.out, DataErr, g.coming);
    }
  }

  /** Puts out what there is room for; when the block is done its CRC is checked. */
  method PutOut(tt: array<int>, v: Vars, room: nat, k: Crc, ghost g: Trail)
      returns (reply: Reply, done: bool, w: Vars, ghost h: Trail)
    requires OnTrack(k, v, g, tt[..]) && v.d.at == M.Output
    ensures v.out <= w.out && |w.out| - |v.out| <= room && (reply == ROk || reply == RDataError)
      && h == g.(left := h.left)
    ensures reply == ROk ==> OnTrack(k, w, h, tt[..])
    ensures reply == ROk ==> if done then w.d.at == M.BlkHdr(1) else w.d.at == M.Output && |w.out| - |v.out| == room
    ensures reply == RDataError ==> Refused(k, g.fed, w.out)
  {
    var n := |v.d.y.out|;
    h := g;
    var corrupt, q, more := UnRle(tt, v.p, room, n, g.c, g.left, g.ends);
    if corrupt {
      RefusedBad(k, g.fed, v.out, v.d, v.combined, g.left, g.ends, v.crc, g.coming);
      assert Means(k, g.fed, v.out + g.left, Overrun);
      return RDataError, false, v, h;
    }
    Emitted(k, g.fed, v.out, v.d, v.combined, g.left, g.ends, v.crc, g.coming, |more|);
    w := v.(p := q, out := v.out + more, crc := Fold(k, v.crc, more));
    h := g.(left := g.left[|more|..]);
    reply, done := ROk, q.used == n + 1 && q.len == 0;
    if done {
      var ok;
      ok, w := CheckBlock(w, k, h, tt[..]);
      if !ok { reply := RDataError; }
    }
  }

  /** BZ2_decompress on the stream, from where it stopped. */
  method ReadOn(reader: Reader, v: Vars, k: Crc, ghost g: Trail)
      returns (wants: bool, ret: M.Ret, w: Vars, ghost h: Trail)
    requires Feeds(reader, g.coming) && M.Sound(v.d) && v.d.at != M.Output && v.d.at != M.Idle
    requires Keeps(k, g.fed, v.out, StandOf(v.d, v.combined, g.left, g.ends, v.crc), g.coming)
    modifies reader
    ensures Feeds(reader, h.coming) && h == g.(coming := h.coming) && M.Sound(w.d) && w == v.(d := w.d)
      && |h.coming| <= |g.coming|
    ensures wants ==>
      Keeps(k, g.fed, v.out, Reads(w.d, v.combined), h.coming) && M.Go(w.d, h.coming).Waiting? && M.AtRead(w.d)
    ensures !wants ==> Keeps(k, g.fed, v.out, Returns(k, ret, w.d, v.combined), h.coming) && |h.coming| < |g.coming|
    ensures !wants && ret == M.Ok ==> HasBlock(w.d) && w.d.at == M.Output
    ensures !wants && ret == M.StreamEnd ==> w.d.at == M.Idle
  {
    FeedsOpens(reader, g.coming);
    KeepsOpens(k, g.fed, v.out, Reads(v.d, v.combined), g.coming);
    var e;
    wants, ret, e := M.Decompress(reader, v.d);
    w := v.(d := e);
    h := g.(coming := reader.Coming());
    FeedsOpens(reader, h.coming);
    if wants {
      ReadsOn(k, g.fed, v.out, v.d, v.combined, g.coming, e, h.coming);
      KeepsOpens(k, g.fed, v.out, Reads(e, v.combined), h.coming);
    } else {
      ReadsReturn(k, g.fed, v.out, v.d, v.combined, g.coming, ret, e, h.coming);
      KeepsOpens(k, g.fed, v.out, Returns(k, ret, e, v.combined), h.coming);
    }
  }

  lemma BlockStands(k: Crc, e: M.D, combined: int)
    requires HasBlock(e) && e.at == M.Output && e.h.randomised == 0
    ensures Returns(k, M.Ok, e, combined) == StandOf(e, combined, BlockBytes(e), BlockEnds(e), k.init)
  {
  }

  lemma RefusedBad(k: Crc, fed: Bitstring, out: seq<int>, e: M.D, combined: int, left: seq<int>, ends: nat, crc: int,
      coming: Bitstring)
    requires Keeps(k, fed, out, StandOf(e, combined, left, ends, crc), coming) && e.at == M.Output && ends > |e.y.out|
    ensures Means(k, fed, out + left, Overrun)
  {
    KeepsOpens(k, fed, out, StandOf(e, combined, left, ends, crc), coming);
    forall future: Bitstring {:trigger fed + future}
      ensures Stream(k, M.Init(), 0, fed + future) == Meaning(out + left, Overrun)
    {
      BadBlock(k, fed, out, e, combined, left, crc, coming, future);
    }
  }

  lemma Emitted(k: Crc, fed: Bitstring, out: seq<int>, d: M.D, combined: int, left: seq<int>, ends: nat, crc: int,
      coming: Bitstring, j: nat)
    requires d.at == M.Output && Keeps(k, fed, out, StandOf(d, combined, left, ends, crc), coming) && j <= |left|
    ensures Keeps(k, fed, out + left[..j], StandOf(d, combined, left[j..], ends, Fold(k, crc, left[..j])), coming)
  {
    KeepsOpens(k, fed, out, StandOf(d, combined, left, ends, crc), coming);
    EmitsSome(k, fed, out, d, combined, left, ends > |d.y.out|, crc, coming, j);
    KeepsOpens(k, fed, out + left[..j], StandOf(d, combined, left[j..], ends, Fold(k, crc, left[..j])), coming);
  }

  lemma BlockOut(k: Crc, fed: Bitstring, out: seq<int>, d: M.D, combined: int, crc: int, coming: Bitstring)
    requires Keeps(k, fed, out, Emits(d, combined, [], false, crc), coming)
    ensures var sum := (k.last)(crc);
            Keeps(k, fed, out,
              if sum != d.h.blockCRC then Ends(DataErr) else Reads(d.(at := M.BlkHdr(1)), (k.combine)(combined, sum)),
              coming)
  {
    KeepsOpens(k, fed, out, Emits(d, combined, [], false, crc), coming);
    EmitsDone(k, fed, out, d, combined, crc, coming);
    var sum := (k.last)(crc);
    KeepsOpens(k, fed, out,
      if sum != d.h.blockCRC then Ends(DataErr) else Reads(d.(at := M.BlkHdr(1)), (k.combine)(combined, sum)), coming);
  }

  lemma EndsMeans(k: Crc, fed: Bitstring, out: seq<int>, status: Status, coming: Bitstring)
    requires Keeps(k, fed, out, Ends(status), coming)
    ensures Means(k, fed, out, status)
  {
    KeepsOpens(k, fed, out, Ends(status), coming);
    forall future: Bitstring {:trigger fed + future}
      ensures Stream(k, M.Init(), 0, fed + future) == Meaning(out, status)
    {
      Settled(k, fed, out, status, coming, future);
    }
  }

  /** All input so far has been decoded and more is wanted. */
  lemma WantsMeans(k: Crc, fed: Bitstring, out: seq<int>, d: M.D, combined: int, coming: Bitstring)
    requires Keeps(k, fed, out, Reads(d, combined), coming) && M.Go(d, coming).Waiting?
    ensures Stream(k, M.Init(), 0, fed) == Meaning(out, Wants)
  {
    KeepsOpens(k, fed, out, Reads(d, combined), coming);
    OnlyWants(k, fed, out, d, combined, coming);
  }

  /** What a reply of BZ2_bzDecompress tells about the stream fed so far. */
  ghost predicate Tells(k: Crc, fed: Bitstring, before: seq<int>, out: seq<int>, room: nat, reply: Reply) {
    && before <= out && |out| - |before| <= room
    && match reply
       case ROk => |out| - |before| == room || Stream(k, M.Init(), 0, fed) == Meaning(out, Wants)
       case RStreamEnd => Means(k, fed, out, WellEnded)
       case RDataError => Refused(k, fed, out)
       case RMagicError => Means(k, fed, out, MagicErr)
       case RRandomised => Means(k, fed, out, Randomised)
       case RSequenceError => out == before
  }

  /** What to do with a return of BZ2_decompress other than a block. */
  method PassOn(ret: M.Ret, v: Vars, k: Crc, ghost g: Trail, ghost tt: seq<int>) returns (reply: Reply)
    requires Keeps(k, g.fed, v.out, Returns(k, ret, v.d, v.combined), g.coming) && M.Sound(v.d)
    requires ret == M.Ok ==> HasBlock(v.d) && v.d.h.randomised != 0
    requires ret == M.StreamEnd ==> v.d.at == M.Idle
    ensures reply == RStreamEnd ==> OnTrack(k, v, g, tt) && Means(k, g.fed, v.out, WellEnded)
    ensures reply == RDataError ==> Means(k, g.fed, v.out, DataErr)
    ensures reply == RMagicError ==> Means(k, g.fed, v.out, MagicErr)
    ensures reply == RRandomised ==> Means(k, g.fed, v.out, Randomised)
    ensures reply != ROk && reply != RSequenceError
  {
    match ret
    case Ok =>
      EndsMeans(k, g.fed, v.out, Randomised, g.coming);
      reply := RRandomised;
    case StreamEnd =>
      if v.combined == v.d.h.combinedCRC {
        EndsMeans(k, g.fed, v.out, WellEnded, g.coming);
        reply := RStreamEnd;
      } else {
        EndsMeans(k, g.fed, v.out, DataErr, g.coming);
        reply := RDataError;
      }
    case MagicError =>
      EndsMeans(k, g.fed, v.out, MagicErr, g.coming);
      reply := RMagicError;
    case DataFault =>
      EndsMeans(k, g.fed, v.out, DataErr, g.coming);
      reply := RDataError;
  }

  lemma KeepsFirst(k: Crc)
    ensures Keeps(k, [], [], Reads(M.Init(), 0), [])
  {
    AgreesFirst(k);
    KeepsOpens(k, [], [], Reads(M.Init(), 0), []);
  }

  lemma FeedsFirst(r: Reader)
    requires r.Valid() && r.bsLive == 0 && r.next == []
    ensures Feeds(r, [])
  {
    assert ByteBits([]) == [] && r.Coming() == [];
    FeedsOpens(r, []);
  }

  class DState {
    const k: Crc
    const reader: Reader
    var tt: array<int>
    var v: Vars
    ghost var g: Trail

    ghost predicate Valid()
      reads this, reader, tt
    {
      Feeds(reader, g.coming) && OnTrack(k, v, g, tt[..])
    }

    /** BZ2_bzDecompressInit, for the FAST decoder. */
    constructor (k: Crc)
      ensures Valid() && v.out == [] && g.fed == [] && this.k == k && fresh(reader) && fresh(tt) && v.d.at != M.Idle
    {
      this.k := k;
      reader := new Reader([]);
      tt := new int[0];
      v := Vars(M.Init(), 0, 0, Place(0, 0, 0, 0, 0), []);
      g := Trail(Column([], [], 0), [], 0, [], []);
      new;
      KeepsFirst(k);
      FeedsFirst(reader);
    }

    /** The caller sets next_in and avail_in. */
    method Offer(input: seq<int>)
      requires Valid() && AreBytes(input)
      modifies this`g, reader
      ensures Valid() && g == old(g).(fed := old(g.fed) + ByteBits(input), coming := g.coming)
    {
      FeedsOpens(reader, g.coming);
      OfferKeeps(k, v, g, tt[..], ByteBits(input));
      reader.Feed(input);
      g := g.(fed := g.fed + ByteBits(input), coming := g.coming + ByteBits(input));
      FeedsOpens(reader, g.coming);
    }

    /** The output half of the loop. */
    method GiveOut(room: nat) returns (reply: Reply, done: bool)
      requires Valid() && v.d.at == M.Output
      modifies this`v, this`g
      ensures old(v.out) <= v.out && |v.out| - |old(v.out)| <= room && (reply == ROk || reply == RDataError)
      ensures g.fed == old(g.fed) && g.coming == old(g.coming)
      ensures reply == ROk ==>
        Valid() && if done then v.d.at == M.BlkHdr(1) else v.d.at == M.Output && |v.out| - |old(v.out)| == room
      ensures reply == RDataError ==> Refused(k, g.fed, v.out)
    {
      ghost var h;
      reply, done, v, h := PutOut(tt, v, room, k, g);
      g := h;
    }

    /** The input half: reads on, up to the next block or the end. */
    method TakeIn() returns (reply: Reply, block: bool)
      requires Valid() && v.d.at != M.Output && v.d.at != M.Idle
      modifies this`v, this`g, this`tt, reader, tt
      ensures v.out == old(v.out) && g.fed == old(g.fed) && |g.coming| <= |old(g.coming)|
        && (fresh(tt) || tt == old(tt))
      ensures reply != RSequenceError
      ensures reply == ROk ==> v.d.at != M.Idle
      ensures reply == ROk ==>
        Valid() && if block then v.d.at == M.Output && |g.coming| < |old(g.coming)|
        else Stream(k, M.Init(), 0, g.fed) == Meaning(v.out, Wants)
      ensures reply != ROk ==> Tells(k, g.fed, v.out, v.out, 0, reply) && (reply == RStreamEnd ==> Valid())
    {
      var wants, ret, w, h := ReadOn(reader, v, k, g);
      block := false;
      if wants {
        WantsMeans(k, g.fed, v.out, w.d, w.combined, h.coming);
        v, g := w, h;
        return ROk, false;
      }
      if ret != M.Ok || w.d.h.randomised != 0 {
        reply := PassOn(ret, w, k, h, tt[..]);
        v, g := w, h;
        return;
      }
      var t, p, c, left, ends := PrepareBlock(tt, w.d, k, h.fed, w.out, w.combined, h.coming);
      tt, v, g := t, w.(crc := k.init, p := p), h.(c := c, left := left, ends := ends);
      return ROk, true;
    }

    /** BZ2_bzDecompress. Whatever pieces the input came in and whatever space was given, the reply and what
        has come out are those of the stream fed so far. */
    method Decompress(input: seq<int>, room: nat) returns (reply: Reply)
      requires Valid() && AreBytes(input)
      modifies this, reader, tt
      ensures g.fed == old(g.fed) + ByteBits(input) && Tells(k, g.fed, old(v.out), v.out, room, reply)
      ensures reply == ROk || reply == RStreamEnd || reply == RSequenceError ==> Valid()
      ensures reply == RSequenceError <==> old(v.d.at) == M.Idle
      ensures (reply == ROk ==> v.d.at != M.Idle) && (fresh(tt) || tt == old(tt))
    {
      Offer(input);
      if v.d.at == M.Idle { return RSequenceError; }
      reply := Loop(room);
    }

    method Loop(room: nat) returns (reply: Reply)
      requires Valid() && v.d.at != M.Idle
      modifies this`v, this`g, this`tt, reader, tt
      ensures g.fed == old(g.fed) && Tells(k, g.fed, old(v.out), v.out, room, reply) && reply != RSequenceError
      ensures reply == ROk || reply == RStreamEnd ==> Valid()
      ensures (reply == ROk ==> v.d.at != M.Idle) && (fresh(tt) || tt == old(tt))
    {
      ghost var before := v.out;
      var start := |v.out|;
      while true
        invariant Valid() && v.d.at != M.Idle && g.fed == old(g.fed) && before <= v.out && |v.out| - |before| <= room
        invariant (fresh(tt) || tt == old(tt)) && start == |before|
        decreases |g.coming|, if v.d.at == M.Output then 1 else 0
      {
        if v.d.at == M.Output {
          var done;
          reply, done := GiveOut(room - (|v.out| - start));
          if reply != ROk || !done { return; }
        }
        var block;
        reply, block := TakeIn();
        if reply != ROk || !block { return; }
      }
    }
  }

  lemma OfferKeeps(k: Crc, v: Vars, g: Trail, tt: seq<int>, x: Bitstring)
    requires OnTrack(k, v, g, tt)
    ensures OnTrack(k, v, g.(fed := g.fed + x, coming := g.coming + x), tt)
  {
    var at := StandOf(v.d, v.combined, g.left, g.ends, v.crc);
    KeepsOpens(k, g.fed, v.out, at, g.coming);
    AgreesFed(k, g.fed, v.out, at, g.coming, x);
    KeepsOpens(k, g.fed + x, v.out, at, g.coming + x);
  }

  // ---- any sequence of calls ----

  datatype Call = Call(input: seq<int>, room: nat)

  ghost function Inputs(calls: seq<Call>): seq<int> {
    if calls == [] then [] else Inputs(calls[..|calls| - 1]) + calls[|calls| - 1].input
  }

  /** What has come out is a first part of what the bits fed so far mean, whatever comes later. */
  ghost predicate Begins(k: Crc, fed: Bitstring, out: seq<int>) {
    forall future: Bitstring {:trigger fed + future} :: out <= Stream(k, M.Init(), 0, fed + future).bytes
  }

  lemma OnTrackPrefix(k: Crc, v: Vars, g: Trail, tt: seq<int>)
    requires OnTrack(k, v, g, tt)
    ensures Begins(k, g.fed, v.out)
  {
    var at := StandOf(v.d, v.combined, g.left, g.ends, v.crc);
    KeepsOpens(k, g.fed, v.out, at, g.coming);
  }

  lemma {:induction false} InputBytes(calls: seq<Call>)
    requires forall i {:trigger calls[i]} :: 0 <= i < |calls| ==> AreBytes(calls[i].input)
    ensures AreBytes(Inputs(calls))
    decreases |calls|
  {
    if calls != [] { InputBytes(calls[..|calls| - 1]); assert AreBytes(calls[|calls| - 1].input); }
  }

  lemma InputsMore(calls: seq<Call>, i: nat)
    requires i < |calls| && forall i {:trigger calls[i]} :: 0 <= i < |calls| ==> AreBytes(calls[i].input)
    ensures AreBytes(Inputs(calls[..i])) && AreBytes(Inputs(calls[..i + 1])) && AreBytes(calls[i].input)
    ensures ByteBits(Inputs(calls[..i + 1])) == ByteBits(Inputs(calls[..i])) + ByteBits(calls[i].input)
  {
    assert calls[..i + 1][..i] == calls[..i];
    InputBytes(calls[..i]);
    InputBytes(calls[..i + 1]);
    assert AreBytes(calls[i].input);
    ByteBitsAppend(Inputs(calls[..i]), calls[i].input);
  }

  /** What the reply to the last of some calls tells about the stream fed by all of them. */
  ghost predicate Concludes(k: Crc, fed: Bitstring, out: seq<int>, reply: Reply) {
    match reply
    case ROk => Begins(k, fed, out)
    case RStreamEnd => Means(k, fed, out, WellEnded)
    case RDataError => Refused(k, fed, out)
    case RMagicError => Means(k, fed, out, MagicErr)
    case RRandomised => Means(k, fed, out, Randomised)
    case RSequenceError => false
  }

  /** What call i told, with before and after the bytes that had come out. */
  ghost predicate Told(k: Crc, calls: seq<Call>, i: int, before: seq<int>, after: seq<int>, reply: Reply) {
    0 <= i < |calls| && AreBytes(Inputs(calls[..i + 1]))
      && Tells(k, ByteBits(Inputs(calls[..i + 1])), before, after, calls[i].room, reply)
  }

  /** Nothing has come out before the first call, all calls but the last were answered with ROk, and every call told the
      truth about the stream up to it. */
  ghost predicate History(k: Crc, calls: seq<Call>, outs: seq<seq<int>>, reply: Reply) {
    |outs| > 0 && outs[0] == [] && forall i {:trigger After(outs, i)} :: 0 <= i < |outs| - 1 ==>
      Told(k, calls, i, outs[i], After(outs, i), if i == |outs| - 2 then reply else ROk)
  }

  ghost function After(outs: seq<seq<int>>, i: int): seq<int> { if 0 <= i < |outs| - 1 then outs[i + 1] else [] }

  lemma HistoryMore(k: Crc, calls: seq<Call>, outs: seq<seq<int>>, out: seq<int>, reply: Reply)
    requires History(k, calls, outs, ROk) && Told(k, calls, |outs| - 1, outs[|outs| - 1], out, reply)
    ensures History(k, calls, outs + [out], reply)
  {
    var all := outs + [out];
    forall i {:trigger After(all, i)} | 0 <= i < |all| - 1
      ensures Told(k, calls, i, all[i], After(all, i), if i == |all| - 2 then reply else ROk)
    {
      if i < |all| - 2 { assert Told(k, calls, i, outs[i], After(outs, i), ROk); }
    }
  }

  /** However a stream is cut into calls, and whatever space each call gives, the outcome is that of the bytes of all
      calls together, and every call gives out what it can: one that asks for more has filled its space or used up
      its input. */
  method Session(k: Crc, calls: seq<Call>) returns (s: DState, reply: Reply, used: nat, ghost outs: seq<seq<int>>)
    requires forall i {:trigger calls[i]} :: 0 <= i < |calls| ==> AreBytes(calls[i].input)
    ensures used <= |calls| && AreBytes(Inputs(calls[..used])) && s.k == k && s.g.fed == ByteBits(Inputs(calls[..used]))
    ensures Concludes(k, s.g.fed, s.v.out, reply) && (reply == ROk ==> used == |calls|)
    ensures History(k, calls, outs, reply) && |outs| == used + 1 && outs[used] == s.v.out
  {
    s := new DState(k);
    reply, used, outs := ROk, 0, [[]];
    assert calls[..0] == [];
    OnTrackPrefix(k, s.v, s.g, s.tt[..]);
    while used < |calls| && reply == ROk
      invariant used <= |calls| && AreBytes(Inputs(calls[..used])) && s.k == k
        && s.g.fed == ByteBits(Inputs(calls[..used]))
      invariant fresh(s) && fresh(s.reader) && fresh(s.tt)
      invariant reply == ROk ==> s.Valid() && s.v.d.at != M.Idle
      invariant Concludes(k, s.g.fed, s.v.out, reply)
      invariant History(k, calls, outs, reply) && |outs| == used + 1 && outs[used] == s.v.out
      decreases |calls| - used
    {
      InputsMore(calls, used);
      reply := s.Decompress(calls[used].input, calls[used].room);
      if reply == ROk { OnTrackPrefix(k, s.v, s.g, s.tt[..]); }
      HistoryMore(k, calls, outs, s.v.out, reply);
      outs := outs + [s.v.out];
      used := used + 1;
    }
    assert calls[..|calls|] == calls;
  }

  lemma {:induction false} InputsPrefix(calls: seq<Call>, i: nat) returns (rest: seq<int>)
    requires i <= |calls| && forall i {:trigger calls[i]} :: 0 <= i < |calls| ==> AreBytes(calls[i].input)
    ensures AreBytes(rest) && Inputs(calls) == Inputs(calls[..i]) + rest
    decreases |calls|
  {
    if i == |calls| {
      rest := [];
      assert calls[..i] == calls && Inputs(calls) + [] == Inputs(calls);
    } else {
      var m := |calls| - 1;
      var q := calls[..m];
      assert forall j {:trigger q[j]} :: 0 <= j < |q| ==> q[j] == calls[j];
      rest := InputsPrefix(q, i);
      assert q[..i] == calls[..i] && AreBytes(calls[m].input);
      assert (Inputs(calls[..i]) + rest) + calls[m].input == Inputs(calls[..i]) + (rest + calls[m].input);
      rest := rest + calls[m].input;
    }
  }

  function ReplyFor(status: Status): Reply {
    match status
    case Wants => ROk
    case WellEnded => RStreamEnd
    case DataErr => RDataError
    case Overrun => RDataError
    case MagicErr => RMagicError
    case Randomised => RRandomised
  }

  /** A session that has ended has ended as the whole stream does, of which it may have seen only a part. */
  lemma EndedAs(k: Crc, calls: seq<Call>, used: nat, out: seq<int>, reply: Reply)
    requires used <= |calls| && forall i {:trigger calls[i]} :: 0 <= i < |calls| ==> AreBytes(calls[i].input)
    requires reply != ROk && AreBytes(Inputs(calls[..used]))
      && Concludes(k, ByteBits(Inputs(calls[..used])), out, reply)
    ensures AreBytes(Inputs(calls))
    ensures var m := Stream(k, M.Init(), 0, ByteBits(Inputs(calls)));
      reply == ReplyFor(m.status) && (m.status != Overrun ==> out == m.bytes)
  {
    var rest := InputsPrefix(calls, used);
    ByteBitsAppend(Inputs(calls[..used]), rest);
    EndedBy(k, ByteBits(Inputs(calls[..used])), ByteBits(rest), out, reply);
  }

  lemma EndedBy(k: Crc, fed: Bitstring, more: Bitstring, out: seq<int>, reply: Reply)
    requires reply != ROk && Concludes(k, fed, out, reply)
    ensures var m := Stream(k, M.Init(), 0, fed + more);
      reply == ReplyFor(m.status) && (m.status != Overrun ==> out == m.bytes)
  {
  }

  /** A session on a first part of a stream that ends well. */
  lemma EndsRight(k: Crc, fed: Bitstring, more: Bitstring, out: seq<int>, reply: Reply, data: seq<int>)
    requires Concludes(k, fed, out, reply) && Stream(k, M.Init(), 0, fed + more) == Meaning(data, WellEnded)
    ensures if reply == ROk then out <= data else reply == RStreamEnd && out == data
  {
    if reply != ROk { EndedBy(k, fed, more, out, reply); }
  }

  /** Two ways to feed one stream and to take what comes out: if both come to an end, they end with the same reply and
      the same bytes, unless the stream has a block that ends in the middle of a run. */
  method TwoSessions(k: Crc, calls: seq<Call>, others: seq<Call>)
      returns (s: DState, t: DState, reply: Reply, other: Reply, ghost souts: seq<seq<int>>, ghost touts: seq<seq<int>>)
    requires forall i {:trigger calls[i]} :: 0 <= i < |calls| ==> AreBytes(calls[i].input)
    requires forall i {:trigger others[i]} :: 0 <= i < |others| ==> AreBytes(others[i].input)
    requires Inputs(calls) == Inputs(others)
    ensures History(k, calls, souts, reply) && s.v.out == souts[|souts| - 1] && Concludes(k, s.g.fed, s.v.out, reply)
    ensures History(k, others, touts, other) && t.v.out == touts[|touts| - 1] && Concludes(k, t.g.fed, t.v.out, other)
    ensures (reply == ROk ==> |souts| == |calls| + 1) && (other == ROk ==> |touts| == |others| + 1)
    ensures reply != ROk && other != ROk ==> reply == other && AreBytes(Inputs(calls))
    ensures reply != ROk && other != ROk && Stream(k, M.Init(), 0, ByteBits(Inputs(calls))).status != Overrun ==>
      s.v.out == t.v.out
  {
    var used, n;
    s, reply, used, souts := Session(k, calls);
    t, other, n, touts := Session(k, others);
    if reply != ROk { EndedAs(k, calls, used, s.v.out, reply); }
    if other != ROk { EndedAs(k, others, n, t.v.out, other); }
  }
}
