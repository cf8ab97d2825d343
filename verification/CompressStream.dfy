/** BZ2_bzCompress over any sequence of RUN, FLUSH and FINISH calls: once it says the stream has ended, what it has
    given out is a stream of exactly what it has taken in. */
module CompressStream {
  import opened Rotations
  import opened Bits
  import opened BitIo
  import opened Crcs
  import opened Rle
  import opened Blocks
  import M = DecodeMachine
  import opened StreamMeaning
  import SR = StreamRoundTrip
  import E = EncodeStream
  import opened EncoderTrace
  import opened Compressor
  import opened CompressCalls

  /** The bits that are not in a byte yet, the blocks written, the calls that wrote them, and where the input was
      flushed. */
  datatype Tail = Tail(live: Bitstring, pieces: seq<SR.Piece>, trace: seq<Made>, log: Log)

  /** The bytes made so far: the whole stream of all input in finished blocks once the last block is in it. */
  ghost predicate Encoding(k: Crc, size: int, h: seq<Chunk>, raw: seq<int>, e: E.Enc, g: Tail, made: seq<int>) {
    if Ended(h) then E.IsFile(k, size, raw, made)
    else E.Coding(k, size, h == [], e, g.live, g.pieces, made) && SR.AllBytes(g.pieces) == raw
  }

  lemma {:induction false} RunsAreBytes(ps: seq<Pair>)
    requires Runs(ps)
    ensures AreBytes(Encoded(ps)) && (Encoded(ps) == [] <==> ps == [])
    decreases |ps|
  {
    if ps != [] {
      var m := |ps| - 1;
      RunsPrefix(ps);
      RunsAreBytes(ps[..m]);
      EncodedMore(ps[..m], ps[m]);
      assert ps == ps[..m] + [ps[m]];
      PairBytes(ps[m]);
    }
  }

  lemma RunsPrefix(ps: seq<Pair>)
    requires Runs(ps) && ps != []
    ensures Runs(ps[..|ps| - 1]) && IsRun(ps[|ps| - 1])
  {
    var q := ps[..|ps| - 1];
    forall i {:trigger Apart(q, i)} | 0 <= i < |q| - 1 ensures Apart(q, i) { assert Apart(ps, i); }
  }

  /** BZ2_compressBlock, on a block that holds runs. */
  method Encode(k: Crc, size: int, h: seq<Chunk>, e: E.Enc, block: seq<int>, crc: int, last: bool,
      ghost runs: seq<Pair>,
      ghost raw: seq<int>, ghost g: Tail, ghost made: seq<int>) returns (e': E.Enc, bytes: seq<int>, ghost g': Tail)
    requires Encoding(k, size, h, raw, e, g, made) && !Ended(h) && Runs(runs) && block == Encoded(runs)
      && |block| <= 100000 * size
    requires crc == Fold(k, k.init, Expanded(runs))
    ensures Encoding(k, size, h + [Chunk(block, last)], raw + Expanded(runs), e', g', made + bytes)
      && g'.log == g.log && g'.trace == g.trace
  {
    ghost var live, qs;
    RunsAreBytes(runs);
    var data: seq<Byte> := block;
    if last {
      e', live := e, g.live;
      bytes, qs := E.EncodeLast(k, size, h == [], e, data, (k.last)(crc), runs, g.live, g.pieces, made);
    } else {
      e', bytes, live, qs := E.EncodeChunk(k, size, h == [], e, data, (k.last)(crc), runs, g.live, g.pieces, made);
    }
    g' := Tail(live, qs, g.trace, g.log);
  }

  /** The bytes made by s are those of its blocks. Kept closed where it is only passed on. */
  ghost predicate Codes(s: EState, e: E.Enc, g: Tail)
    reads s`history, s`raws, s`made
  {
    forall u {:trigger Shown(g, u)} :: Shown(g, u) ==> CodesNow(s, e, g, u)
  }

  ghost predicate CodesNow(s: EState, e: E.Enc, g: Tail, u: int)
    reads s`history, s`raws, s`made
  {
    s.nblockMAX == 100000 * s.size - 19 && Encoding(s.k, s.size, s.history, Joined(s.raws), e, g, s.made)
      && Traced(s.k, s.history, g.trace, e, s.made)
  }

  ghost predicate Shown(g: Tail, u: int) { true }

  lemma CodesOpen(s: EState, e: E.Enc, g: Tail)
    ensures Codes(s, e, g) <==> CodesNow(s, e, g, 0)
  {
    assert Shown(g, 0);
    if CodesNow(s, e, g, 0) {
      forall u {:trigger Shown(g, u)} | Shown(g, u) ensures CodesNow(s, e, g, u) {
        assert CodesNow(s, e, g, 0);
      }
    }
  }

  /** The call of BZ2_compressBlock for a block joins those before it. */
  lemma TraceGrows(k: Crc, h: seq<Chunk>, t: seq<Made>, e: E.Enc, made: seq<int>, runs: seq<Pair>, c: Made)
    requires Traced(k, h, t, e, made) && Runs(runs) && c.chunk.data == Encoded(runs)
    requires c.crc == Fold(k, k.init, Expanded(runs)) && c.first == (h == []) && c.before == e
    ensures Traced(k, h + [c.chunk], t + [c], c.after, made + c.bytes)
  {
    UnRleInvertsRle(runs, 0, 0);
    TracedMore(k, h, t, e, made, c);
  }

  lemma JoinedMore(raws: seq<seq<int>>, x: seq<int>)
    ensures Joined(raws + [x]) == Joined(raws) + x
  {
    assert (raws + [x])[..|raws|] == raws;
  }

  /** A block that is ready is compressed. */
  method MakeBlock(s: EState, e: E.Enc, last: bool, ghost g: Tail) returns (e': E.Enc, ghost g': Tail)
    requires s.Ready(last) && Codes(s, e, g)
    modifies s`history, s`raws, s`runs, s`zbits, s`pos, s`outputting, s`made
    ensures s.Working() && s.outputting && Codes(s, e', g') && g'.log == g.log
    ensures s.Now() == old(s.Now()).(chunks := old(s.history) + [Chunk(old(Encoded(s.runs)), last)], runs := [])
  {
    s.ReadyBlock(last);
    CodesOpen(s, e, g);
    ghost var raws, x := s.raws, Expanded(s.runs);
    var bytes;
    e', bytes, g' := Encode(s.k, s.size, s.history, e, s.block, s.blockCRC, last, s.runs, Joined(s.raws), g, s.made);
    ghost var c := Made(Chunk(s.block, last), s.blockCRC, s.history == [], e, bytes, e');
    TraceGrows(s.k, s.history, g.trace, e, s.made, s.runs, c);
    g' := g'.(trace := g.trace + [c]);
    s.Supply(last, bytes);
    JoinedMore(raws, x);
    CodesOpen(s, e', g');
  }

  /** What is gathered in s is what the log says. */
  ghost predicate Gathers(s: EState, log: Log)
    reads s`history, s`runs, s`ch, s`len, s`taken
  {
    Logged(s.Now(), s.taken, log, s.nblockMAX)
  }

  /** How far the present flush has got: its block is made when that waits for output and the run buffer is empty. */
  ghost predicate Stands(s: EState, log: Log, op: Op)
    reads s`mode, s`outputting, s`ch, s`availInExpect, s`taken
  {
    Stage(s.mode, s.outputting && s.ch == 256, s.availInExpect, |s.taken|, log, op)
  }

  /** And when handle_compress has stopped. */
  ghost predicate Stood(s: EState, log: Log, op: Op)
    reads s`mode, s`ch, s`availInExpect, s`taken
  {
    Stage(s.mode, s.ch == 256, s.availInExpect, |s.taken|, log, op)
  }

  lemma CodesSame(s: EState, e: E.Enc, g: Tail, log: Log)
    requires Codes(s, e, g)
    ensures Codes(s, e, g.(log := log))
  {
    CodesOpen(s, e, g);
    CodesOpen(s, e, g.(log := log));
  }

  /** One turn of the loop, with the block that it makes. */
  method MakeTurn(s: EState, e0: E.Enc, ghost g0: Tail)
      returns (progress: bool, stop: bool, e: E.Enc, ghost g: Tail, ghost flushed: bool, ghost v: Work)
    requires s.Working() && Codes(s, e0, g0)
    modifies s`block, s`inUse, s`runs, s`blockCRC, s`ch, s`len, s`taken, s`nextIn, s`availInExpect,
             s`history, s`raws, s`zbits, s`pos, s`outputting, s`out, s`availOut, s`made
    ensures Codes(s, e, g) && g.log == g0.log && (if stop then s.Handled() else s.Working() && s.outputting)
    ensures Went(old(s.Seen()), old(s.outputting), s.Seen(), progress, stop, flushed)
    ensures Turned(old(s.Now()), Came(old(s.nextIn), s.nextIn), v, s.Now(), stop, flushed, s.mode == Finishing,
      s.nblockMAX)
  {
    e, g := e0, g0;
    ghost var w, all := s.Now(), s.nextIn;
    var last;
    progress, stop, last, flushed := s.Turn();
    v := s.Now();
    ghost var came, seen := Came(all, s.nextIn), s.Seen();
    if !stop {
      e, g := MakeBlock(s, e, last, g);
      assert s.Seen() == seen;
    }
    TurnedIs(w, came, v, s.Now(), stop, flushed, last, s.nblockMAX);
  }

  /** The same, with its place in the log. */
  method OneTurn(s: EState, e0: E.Enc, ghost g0: Tail, ghost op: Op)
      returns (progress: bool, stop: bool, e: E.Enc, ghost g: Tail)
    requires s.Working() && Codes(s, e0, g0) && Gathers(s, g0.log) && Stands(s, g0.log, op)
    modifies s`block, s`inUse, s`runs, s`blockCRC, s`ch, s`len, s`taken, s`nextIn, s`availInExpect,
             s`history, s`raws, s`zbits, s`pos, s`outputting, s`out, s`availOut, s`made
    ensures Codes(s, e, g) && Gathers(s, g.log) && (if stop then s.Handled() else s.Working() && s.outputting)
    ensures Stood(s, g.log, op)
    ensures s.taken + s.nextIn == old(s.taken + s.nextIn) && |s.nextIn| <= old(|s.nextIn|)
    ensures progress <==> |s.nextIn| < old(|s.nextIn|) || |s.out| > old(|s.out|)
    ensures old(s.out) <= s.out && s.availOut + |s.out| == old(s.availOut + |s.out|)
    ensures !stop && |s.nextIn| == old(|s.nextIn|) && s.ch < 256 ==> old(s.ch) < 256
    ensures !stop && old(s.outputting) && |s.nextIn| == old(|s.nextIn|) ==> old(s.ch) < 256 && s.ch == 256
  {
    ghost var w, all, taken, v := s.Now(), s.nextIn, s.taken, s.Now();
    ghost var before, was, flushed := s.Seen(), s.outputting, false;
    progress, stop, e, g, flushed, v := MakeTurn(s, e0, g0);
    ghost var came := Came(all, s.nextIn);
    WentOpens(before, was, s.Seen(), progress, stop, flushed);
    CameTaken(taken, all, s.taken, s.nextIn, came);
    ghost var log := TurnLogged(w, taken, g0.log, s.nblockMAX, came, v, s.Now(), stop, flushed, s.mode == Finishing);
    LoggedLen(w, taken, g0.log, s.nblockMAX);
    StageTurn(before, was, s.Seen(), progress, stop, flushed, g0.log, log, op);
    CodesSame(s, e, g, log);
    g := g.(log := log);
  }

  /** handle_compress. */
  method HandleCompress(s: EState, e0: E.Enc, ghost g0: Tail, ghost op: Op)
      returns (progress: bool, e: E.Enc, ghost g: Tail)
    requires s.Working() && Codes(s, e0, g0) && Gathers(s, g0.log) && Stands(s, g0.log, op)
    modifies s`block, s`inUse, s`runs, s`blockCRC, s`ch, s`len, s`taken, s`nextIn, s`availInExpect,
             s`history, s`raws, s`zbits, s`pos, s`outputting, s`out, s`availOut, s`made
    ensures s.Handled() && Codes(s, e, g) && s.taken + s.nextIn == old(s.taken + s.nextIn)
      && |s.nextIn| <= old(|s.nextIn|)
    ensures progress <==> |s.nextIn| < old(|s.nextIn|) || |s.out| > old(|s.out|)
    ensures old(s.out) <= s.out && s.availOut + |s.out| == old(s.availOut + |s.out|)
    ensures Gathers(s, g.log) && Stood(s, g.log, op)
  {
    progress, e, g := false, e0, g0;
    while true
      invariant s.Working() && Codes(s, e, g) && s.taken + s.nextIn == old(s.taken + s.nextIn)
        && |s.nextIn| <= old(|s.nextIn|)
      invariant old(s.out) <= s.out && s.availOut + |s.out| == old(s.availOut + |s.out|)
      invariant progress <==> |s.nextIn| < old(|s.nextIn|) || |s.out| > old(|s.out|)
      invariant Gathers(s, g.log) && Stands(s, g.log, op)
      decreases |s.nextIn|, if s.ch < 256 then 1 else 0, if s.outputting then 0 else 1
    {
      var p, stop;
      p, stop, e, g := OneTurn(s, e, g, op);
      progress := progress || p;
      if stop { break; }
    }
  }

  /** BZ2_bzCompress. Whatever it returns, the bytes taken and not yet taken are those offered, and every byte made is
      given once. */
  method Compress(s: EState, e0: E.Enc, action: Action, input: seq<int>, space: nat, ghost g0: Tail, ghost op: Op)
      returns (ret: Ret, e: E.Enc, ghost g: Tail)
    requires s.Valid() && Codes(s, e0, g0) && Gathers(s, g0.log) && Stands(s, g0.log, op)
    requires forall i {:trigger input[i]} :: 0 <= i < |input| ==> 0 <= input[i] < 256
    modifies s
    ensures s.Valid() && Codes(s, e, g) && s.taken + s.nextIn == old(s.taken) + input && old(s.out) <= s.out
    ensures Answers(old(s.mode), old(s.availInExpect), action, |input|, space, ret, s.mode, s.availInExpect, |s.nextIn|,
      |s.out| - |old(s.out)|)
    ensures old(s.mode) == Idle ==> s.taken == old(s.taken) && s.out == old(s.out)
    ensures old(s.mode) == Idle ==> s.history == old(s.history) && s.raws == old(s.raws) && s.made == old(s.made)
    ensures ret == StreamEnd ==> Ended(s.history) && s.Settled()
    ensures ret == RunOk && action == Flush ==> s.Settled()
    ensures Gathers(s, g.log)
      && Stands(s, g.log, Concluded(Begun(op, old(s.mode), old(|s.taken|)), action, ret, |s.taken|))
  {
    e, g := e0, g0;
    var go;
    ghost var begun := Begun(op, s.mode, |s.taken|);
    go, ret := Start(s, e, action, input, space, g0, op);
    if go { ret, e, g := Proceed(s, e, action, g, begun); }
  }

  /** The part before it. */
  method Start(s: EState, e: E.Enc, action: Action, input: seq<int>, space: nat, ghost g: Tail, ghost op: Op)
      returns (go: bool, ret: Ret)
    requires s.Valid() && Codes(s, e, g) && Gathers(s, g.log) && Stands(s, g.log, op)
    requires forall i {:trigger input[i]} :: 0 <= i < |input| ==> 0 <= input[i] < 256
    modifies s`nextIn, s`availOut, s`availInExpect, s`mode
    ensures Codes(s, e, g) && Gathers(s, g.log) && Stands(s, g.log, Begun(op, old(s.mode), |s.taken|))
    ensures s.nextIn == input && s.availOut == space
      && (go <==> Goes(old(s.mode), old(s.availInExpect), action, |input|))
    ensures if go then s.Working() else s.Valid() && s.mode == old(s.mode)
    ensures go ==> s.mode == (if action == Run then Running else if action == Flush then Flushing else Finishing)
    ensures !go ==> s.availInExpect == old(s.availInExpect)
    ensures !go ==> ret == if old(s.mode) == Running then ParamError else SequenceError
  {
    ghost var mode, done, owed := s.mode, s.outputting && s.ch == 256, s.availInExpect;
    go, ret := s.Begin(action, input, space);
    if go { StageBegins(mode, done, owed, |s.taken|, g.log, op, |input|, action); }
  }

  /** The part of BZ2_bzCompress from the call of handle_compress on. */
  method Proceed(s: EState, e0: E.Enc, action: Action, ghost g0: Tail, ghost op: Op)
      returns (ret: Ret, e: E.Enc, ghost g: Tail)
    requires s.Working() && Codes(s, e0, g0) && Gathers(s, g0.log) && Stands(s, g0.log, op)
    requires s.mode == if action == Run then Running else if action == Flush then Flushing else Finishing
    modifies s
    ensures s.Valid() && Codes(s, e, g) && s.taken + s.nextIn == old(s.taken + s.nextIn) && old(s.out) <= s.out
    ensures |s.nextIn| <= old(|s.nextIn|) && |s.out| - |old(s.out)| <= old(s.availOut)
    ensures Concludes(action, old(|s.nextIn|), old(s.availOut), ret, s.mode, s.availInExpect, |s.nextIn|,
      |s.out| - |old(s.out)|)
    ensures ret == StreamEnd ==> Ended(s.history) && s.Settled()
    ensures ret == RunOk && action == Flush ==> s.Settled()
    ensures Gathers(s, g.log) && Stands(s, g.log, Concluded(op, action, ret, |s.taken|))
  {
    var progress;
    progress, e, g := HandleCompress(s, e0, g0, op);
    ghost var mode, done, n := s.mode, s.ch == 256, s.availInExpect;
    ret := s.Conclude(progress);
    StageEnds(mode, done, n, |s.taken|, g.log, op, s.mode, s.outputting && s.ch == 256, action, ret, s.availInExpect);
  }

  /** The stream has ended and all of it has been given. */
  ghost predicate Finished(s: EState)
    reads s
  {
    Ended(s.history) && s.Settled() && s.mode == Idle
  }

  method OneCall(s: EState, e0: E.Enc, data: seq<int>, p: nat, call: Call, ghost g0: Tail, ghost op: Op)
      returns (ret: Ret, e: E.Enc, p': nat, ghost g: Tail)
    requires s.Valid() && Codes(s, e0, g0) && Gathers(s, g0.log) && Stands(s, g0.log, op)
    requires AreBytes(data) && p <= |data| && s.taken == data[..p]
    modifies s
    ensures s.Valid() && Codes(s, e, g) && p' <= |data| && s.taken == data[..p']
    ensures Moves(data, call, ret, old(Mark(p, |s.out|, s.mode, s.availInExpect)),
      Mark(p', |s.out|, s.mode, s.availInExpect))
    ensures old(Finished(s)) || ret == StreamEnd ==> Finished(s)
    ensures Gathers(s, g.log) && Stands(s, g.log, Concluded(Begun(op, old(s.mode), p), call.action, ret, p'))
  {
    var n := if p + call.offer <= |data| then call.offer else |data| - p;
    ret, e, g := Compress(s, e0, call.action, data[p..p + n], call.space, g0, op);
    TakenPrefix(data, p, n, s.taken, s.nextIn);
    p' := p + n - |s.nextIn|;
  }

  /** The blocks of a session, at any time: those of the bytes taken, flushed where its calls have flushed. */
  ghost predicate Blocked(s: EState, data: seq<int>, calls: seq<Call>, rets: seq<Ret>, marks: seq<Mark>, log: Log)
    requires |rets| <= |calls| && |marks| == |rets| + 1
    reads s`history, s`runs, s`ch, s`len, s`taken, s`mode, s`outputting, s`availInExpect
  {
    Gathers(s, log) && Stands(s, log, Flushes(calls, rets, marks))
  }

  /** Any session over one stream of data: the blocks code what was taken, in order, whatever the calls; once the stream
      has ended nothing is taken or given any more, and what was given is a stream of what was taken. */
  method Session(data: seq<int>, calls: seq<Call>, blockSize100k: int, k: Crc)
      returns (s: EState, p: nat, rets: seq<Ret>, ghost marks: seq<Mark>, ghost trace: seq<Made>, ghost log: Log)
    requires 1 <= blockSize100k <= 9 && E.GoodCrc(k) && AreBytes(data)
    ensures fresh(s) && s.Valid() && s.k == k && s.nblockMAX + 9 == 100000 * blockSize100k - 10
    ensures p <= |data| && s.taken == data[..p] && |rets| == |calls|
    ensures AllMove(data, calls, rets, marks) && marks[|calls|] == Mark(p, |s.out|, s.mode, s.availInExpect)
    ensures Blocked(s, data, calls, rets, marks, log) && Traced(k, s.history, trace, After(trace), s.made)
    ensures StreamEnd in rets ==> s.mode == Idle && s.out == s.made && UnRleAll(s.history, 0, 0) == data[..p]
    ensures StreamEnd in rets ==> E.IsFile(k, blockSize100k, data[..p], s.out)
    ensures StreamEnd in rets ==>
      AreBytes(s.out) && Stream(k, M.Init(), 0, ByteBits(s.out)) == Meaning(data[..p], WellEnded)
  {
    s := new EState(blockSize100k, k);
    var e := E.Enc(0, 0, 0);
    ghost var g := Tail([], [], [], Log([], []));
    p, rets, marks := 0, [], [Mark(0, 0, Running, 0)];
    E.CodingFirst(k, blockSize100k);
    CodesOpen(s, e, g);
    LoggedFirst(s.nblockMAX);
    for c := 0 to |calls|
      invariant fresh(s) && s.Valid() && Codes(s, e, g) && s.k == k && s.nblockMAX == 100000 * blockSize100k - 19
        && s.size == blockSize100k
      invariant p <= |data| && s.taken == data[..p] && |rets| == c
      invariant StreamEnd in rets ==> Finished(s)
      invariant AllMove(data, calls, rets, marks) && marks[c] == Mark(p, |s.out|, s.mode, s.availInExpect)
      invariant Blocked(s, data, calls, rets, marks, g.log)
    {
      var ret;
      ret, e, p, g := OneCall(s, e, data, p, calls[c], g, Flushes(calls, rets, marks));
      ghost var mark := Mark(p, |s.out|, s.mode, s.availInExpect);
      MoveMore(data, calls, rets, marks, ret, mark);
      FlushesMore(calls, rets, marks, ret, mark);
      rets, marks := rets + [ret], marks + [mark];
    }
    trace, log := g.trace, g.log;
    CodesOpen(s, e, g);
    if StreamEnd in rets { SessionEnd(s, e, g); }
  }

  lemma SessionEnd(s: EState, e: E.Enc, g: Tail)
    requires s.Settled() && Ended(s.history) && Codes(s, e, g)
    ensures E.IsFile(s.k, s.size, s.taken, s.out)
    ensures AreBytes(s.out) && Stream(s.k, M.Init(), 0, ByteBits(s.out)) == Meaning(s.taken, WellEnded)
    ensures UnRleAll(s.history, 0, 0) == s.taken && s.out == s.made
  {
    s.SettledOpen();
    CodesOpen(s, e, g);
    E.FileMeans(s.k, s.size, s.taken, s.out);
    BlocksDecode(s.history, s.raws, s.nblockMAX + 9, 0, 0);
  }
}
