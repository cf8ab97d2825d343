/** What the blocks and the bytes of a compression depend on: the data and where it is flushed, and nothing else of how
    the calls are cut, except whether a flush itself takes a byte that fills a block. */
module TwoCompressions {
  import opened BitIo
  import opened Crcs
  import opened Blocks
  import E = EncodeStream
  import opened EncoderTrace
  import opened Compressor
  import opened CompressCalls
  import opened CompressStream

  /** A compression that has ended made the blocks of what it took, flushed where its calls flushed. */
  ghost predicate BlocksOf(h: seq<Chunk>, taken: seq<int>, places: seq<Place>, segs: seq<Seg>, max: int) {
    h == AllChunks(segs, max) && SegBytes(segs) == taken && Places(segs) == places
  }

  lemma EndedBlocks(s: EState, data: seq<int>, calls: seq<Call>, rets: seq<Ret>, marks: seq<Mark>, log: Log)
    requires AllMove(data, calls, rets, marks) && Blocked(s, data, calls, rets, marks, log)
    requires s.mode == Idle && marks[|rets|].mode == Idle && marks[|rets|].taken == |s.taken|
    ensures BlocksOf(s.history, s.taken, Flushes(calls, rets, marks).places, log.segs, s.nblockMAX)
  {
    EndedThere(data, calls, rets, marks);
    LoggedOpens(s.Now(), s.taken, log, s.nblockMAX);
    PlacesLen(log.segs);
    PlacesEnd(log.segs);
  }

  /** Without a flush every block but the last is full. */
  lemma UnflushedBlocks(h: seq<Chunk>, data: seq<int>, taken: seq<int>, calls: seq<Call>, rets: seq<Ret>,
      marks: seq<Mark>, segs: seq<Seg>, max: int)
    requires AllMove(data, calls, rets, marks) && marks[|rets|].mode == Idle
      && BlocksOf(h, taken, Flushes(calls, rets, marks).places, segs, max)
    requires forall i {:trigger calls[i]} :: 0 <= i < |calls| ==> calls[i].action != Flush
    ensures h != [] && FullChunks(h, |h| - 1, max) && h[|h| - 1].last
  {
    OnlyTheEnd(data, calls, rets, marks);
    EndedThere(data, calls, rets, marks);
    PlacesLen(segs);
    OnlyLastShort(segs[0], max);
    assert segs == [segs[0]];
  }

  // ---- two compressions of the same data ----

  /** The bytes between the flush at place i and the one before it. */
  ghost function Between(places: seq<Place>, data: seq<int>, i: nat): seq<int>
    requires i < |places|
  {
    var from := if i == 0 then 0 else places[i - 1].at;
    if from <= places[i].at <= |data| then data[from..places[i].at] else []
  }

  lemma {:induction false} SegAt(segs: seq<Seg>, i: nat)
    requires i < |segs|
    ensures |Places(segs)| == |segs| && segs[i].bytes == Between(Places(segs), SegBytes(segs), i)
      && Places(segs)[i].at <= |SegBytes(segs)|
    decreases |segs|
  {
    var m, p := |segs| - 1, Places(segs);
    PlacesLen(segs);
    PlacesLen(segs[..m]);
    PlacesEnd(segs);
    if m > 0 { PlacesEnd(segs[..m]); }
    if i < m { SegAt(segs[..m], i); }
  }

  /** Wherever just one of two flushes at the same place has taken some bytes itself, the last byte before it does not
      fill a block. */
  ghost predicate NoneFills(p: seq<Place>, q: seq<Place>, data: seq<int>, max: int)
    requires |p| == |q|
  {
    forall i: nat {:trigger Between(p, data, i)} :: i < |p| ==>
      p[i].joined == q[i].joined || !FillsAtEnd(Between(p, data, i), max)
  }

  lemma NoneFillsIff(a: seq<Seg>, b: seq<Seg>, max: int)
    requires |a| == |b|
    ensures |Places(a)| == |a| && |Places(b)| == |b|
    ensures NoneDiffers(a, b, max) <==> NoneFills(Places(a), Places(b), SegBytes(a), max)
  {
    var p, q, data := Places(a), Places(b), SegBytes(a);
    PlacesLen(a);
    PlacesLen(b);
    forall i: nat | i < |a| ensures a[i].bytes == Between(p, data, i) { SegAt(a, i); }
    if NoneDiffers(a, b, max) {
      forall i: nat {:trigger Between(p, data, i)} | i < |p|
        ensures p[i].joined == q[i].joined || !FillsAtEnd(Between(p, data, i), max)
      {
        assert a[i].joined == p[i].joined && b[i].joined == q[i].joined;
      }
    }
    if NoneFills(p, q, data, max) {
      forall i {:trigger a[i]} {:trigger b[i]} | 0 <= i < |a|
        ensures a[i].joined == b[i].joined || !FillsAtEnd(a[i].bytes, max)
      {
        assert a[i].bytes == Between(p, data, i);
      }
    }
  }

  lemma PartOfBytes(places: seq<Place>, data: seq<int>, i: nat)
    requires i < |places| && AreBytes(data)
    ensures AreBytes(Between(places, data, i))
  {
    var part := Between(places, data, i);
    var from := if i == 0 then 0 else places[i - 1].at;
    forall j {:trigger part[j]} | 0 <= j < |part| ensures 0 <= part[j] < 256 { assert part[j] == data[from + j]; }
  }

  lemma SegsAreBytes(segs: seq<Seg>)
    requires AreBytes(SegBytes(segs))
    ensures forall i {:trigger segs[i]} :: 0 <= i < |segs| ==> AreBytes(segs[i].bytes)
  {
    forall i {:trigger segs[i]} | 0 <= i < |segs| ensures AreBytes(segs[i].bytes) {
      SegAt(segs, i);
      PartOfBytes(Places(segs), SegBytes(segs), i);
    }
  }

  /** Flushed at the same places, the same data makes the same blocks exactly if no flush fills one by itself in one
      compression only. */
  lemma SameData(h: seq<Chunk>, h': seq<Chunk>, taken: seq<int>, p: seq<Place>, q: seq<Place>, a: seq<Seg>, b: seq<Seg>,
      max: int)
    requires BlocksOf(h, taken, p, a, max) && BlocksOf(h', taken, q, b, max) && SameFlushes(p, q) && AreBytes(taken)
    ensures h == h' <==> NoneFills(p, q, taken, max)
  {
    PlacesLen(a);
    PlacesLen(b);
    PlacesSame(a, b);
    SegsAreBytes(a);
    SameBlocks(a, b, max);
    NoneFillsIff(a, b, max);
  }

  /** What a compression that has ended says of its blocks and bytes. */
  ghost predicate Result(k: Crc, h: seq<Chunk>, out: seq<int>, taken: seq<int>, places: seq<Place>, trace: seq<Made>,
      max: int) {
    && EndsAt(places, |taken|) && Traced(k, h, trace, After(trace), out)
    && exists segs {:trigger SegBytes(segs)} :: BlocksOf(h, taken, places, segs, max)
  }

  /** One compression. Once it has ended, its blocks are those of the bytes taken, flushed where the calls have flushed;
      when none has, every block but the last is full. */
  method Compression(data: seq<int>, calls: seq<Call>, blockSize100k: int, k: Crc)
      returns (s: EState, p: nat, rets: seq<Ret>, ghost marks: seq<Mark>, ghost trace: seq<Made>)
    requires 1 <= blockSize100k <= 9 && E.GoodCrc(k) && AreBytes(data)
    ensures fresh(s) && p <= |data| && s.taken == data[..p] && |rets| == |calls| && AllMove(data, calls, rets, marks)
    ensures StreamEnd in rets ==>
      Result(k, s.history, s.out, data[..p], Flushes(calls, rets, marks).places, trace, 100000 * blockSize100k - 19)
    ensures StreamEnd in rets && (forall i {:trigger calls[i]} :: 0 <= i < |calls| ==> calls[i].action != Flush) ==>
      var n := |s.history| - 1;
      n >= 0 && FullChunks(s.history, n, 100000 * blockSize100k - 19) && s.history[n].last
  {
    ghost var log;
    s, p, rets, marks, trace, log := Session(data, calls, blockSize100k, k);
    if StreamEnd in rets {
      ghost var places := Flushes(calls, rets, marks).places;
      EndedThere(data, calls, rets, marks);
      EndedBlocks(s, data, calls, rets, marks, log);
      if forall i {:trigger calls[i]} :: 0 <= i < |calls| ==> calls[i].action != Flush {
        UnflushedBlocks(s.history, data, data[..p], calls, rets, marks, log.segs, s.nblockMAX);
      }
    }
  }

  /** The blocks and bytes of two compressions that have flushed at the same places. */
  ghost predicate Agree(h: seq<Chunk>, h': seq<Chunk>, out: seq<int>, out': seq<int>, taken: seq<int>, taken': seq<int>,
      f: seq<Place>, f': seq<Place>, trace: seq<Made>, trace': seq<Made>, max: int)
    requires |f| == |f'|
  {
    && |taken| == |taken'| && (h == h' <==> NoneFills(f, f', taken, max))
    && (h == h' && SameMakesSame(trace, trace') ==> out == out')
  }

  lemma Agreed(k: Crc, data: seq<int>, p: nat, p': nat, h: seq<Chunk>, h': seq<Chunk>, out: seq<int>, out': seq<int>,
      f: seq<Place>, f': seq<Place>, trace: seq<Made>, trace': seq<Made>, max: int)
    requires p <= |data| && p' <= |data| && AreBytes(data) && SameFlushes(f, f')
    requires Result(k, h, out, data[..p], f, trace, max) && Result(k, h', out', data[..p'], f', trace', max)
    ensures Agree(h, h', out, out', data[..p], data[..p'], f, f', trace, trace', max)
  {
    var a :| BlocksOf(h, data[..p], f, a, max);
    var b :| BlocksOf(h', data[..p'], f', b, max);
    assert p == p';
    SameData(h, h', data[..p], f, f', a, b, max);
    if h == h' && SameMakesSame(trace, trace') { SameBytes(k, h, trace, trace'); }
  }

  /** What two compressions of the same data have in common when both have ended, and flush at the same places. */
  method Compressions(data: seq<int>, calls: seq<Call>, calls': seq<Call>, blockSize100k: int, k: Crc)
      returns (s: EState, s': EState, p: nat, p': nat, rets: seq<Ret>, rets': seq<Ret>, ghost marks: seq<Mark>,
          ghost marks': seq<Mark>, ghost trace: seq<Made>, ghost trace': seq<Made>)
    requires 1 <= blockSize100k <= 9 && E.GoodCrc(k) && AreBytes(data)
    ensures p <= |data| && s.taken == data[..p] && |rets| == |calls| && AllMove(data, calls, rets, marks)
    ensures p' <= |data| && s'.taken == data[..p'] && |rets'| == |calls'| && AllMove(data, calls', rets', marks')
    ensures StreamEnd in rets && StreamEnd in rets' ==>
      var f, f' := Flushes(calls, rets, marks).places, Flushes(calls', rets', marks').places;
      SameFlushes(f, f') ==>
        Agree(s.history, s'.history, s.out, s'.out, data[..p], data[..p'], f, f', trace, trace',
          100000 * blockSize100k - 19)
  {
    s, p, rets, marks, trace := Compression(data, calls, blockSize100k, k);
    s', p', rets', marks', trace' := Compression(data, calls', blockSize100k, k);
    if StreamEnd in rets && StreamEnd in rets' {
      ghost var f, f' := Flushes(calls, rets, marks).places, Flushes(calls', rets', marks').places;
      if SameFlushes(f, f') {
        Agreed(k, data, p, p', s.history, s'.history, s.out, s'.out, f, f', trace, trace', 100000 * blockSize100k - 19);
      }
    }
  }
}
