/** How BZ2_bzCompress cuts its input into blocks, as a function of the bytes and of where it is flushed. */
module Blocks {
  import opened Rle
  import opened BitIo

  /** A call of BZ2_compressBlock: the block and whether the trailer follows it. */
  datatype Chunk = Chunk(data: seq<int>, last: bool)

  /** The blocks made, the runs in the block being filled, and the run buffer. */
  datatype Work = Work(chunks: seq<Chunk>, runs: seq<Pair>, ch: int, len: int)

  /** Nothing gathered yet after these blocks. */
  function Bare(chunks: seq<Chunk>): Work { Work(chunks, [], 256, 0) }

  /** The run in the buffer, if there is one. */
  function Held(w: Work): seq<Pair> { if w.ch < 256 then [Pair(w.ch, w.len)] else [] }

  /** One byte goes into the run buffer; a run that it ends goes into the block. */
  function AddByte(w: Work, c: int): Work {
    if c == w.ch && w.len != 255 then w.(len := w.len + 1) else Work(w.chunks, w.runs + Held(w), c, 1)
  }

  /** The block has max bytes or more. */
  predicate Full(w: Work, max: int) { |Encoded(w.runs)| >= max }

  /** The block is made; what is in the run buffer waits for the next one. */
  function Close(w: Work): Work { w.(chunks := w.chunks + [Chunk(Encoded(w.runs), false)], runs := []) }

  function Take(w: Work, c: int, max: int): Work {
    var v := AddByte(w, c);
    if Full(v, max) then Close(v) else v
  }

  function TakeAll(w: Work, s: seq<int>, max: int): Work {
    if s == [] then w else Take(TakeAll(w, s[..|s| - 1], max), s[|s| - 1], max)
  }

  /** The run buffer is emptied into the block, and the block is made. */
  function Flushed(w: Work, last: bool): seq<Chunk> { w.chunks + [Chunk(Encoded(w.runs + Held(w)), last)] }

  /** The bytes up to a flush or the end. Joined says that the last of them was taken in by the flush itself: then a
      block that it fills is not made without the run buffer. */
  datatype Seg = Seg(bytes: seq<int>, joined: bool, last: bool)

  /** The work before the flush. */
  function Gathered(chunks: seq<Chunk>, s: seq<int>, joined: bool, max: int): Work {
    if joined && s != [] then AddByte(TakeAll(Bare(chunks), s[..|s| - 1], max), s[|s| - 1])
    else TakeAll(Bare(chunks), s, max)
  }

  /** All blocks. */
  function AllChunks(segs: seq<Seg>, max: int): seq<Chunk> {
    if segs == [] then []
    else
      var g := segs[|segs| - 1];
      Flushed(Gathered(AllChunks(segs[..|segs| - 1], max), g.bytes, g.joined, max), g.last)
  }

  /** The last byte before the flush fills a block. */
  predicate FillsAtEnd(s: seq<int>, max: int) { s != [] && Full(Gathered([], s, true, max), max) }

  // ---- the blocks before do not matter ----

  lemma {:induction false} TakeAllAfter(chunks: seq<Chunk>, s: seq<int>, max: int)
    ensures var w, v := TakeAll(Bare(chunks), s, max), TakeAll(Bare([]), s, max);
      w == v.(chunks := chunks + v.chunks)
    decreases |s|
  {
    if s != [] {
      TakeAllAfter(chunks, s[..|s| - 1], max);
    } else {
      assert chunks + [] == chunks;
    }
  }

  /** It makes no difference who took the last byte, unless that fills a block. */
  lemma JoinedSame(chunks: seq<Chunk>, s: seq<int>, max: int)
    ensures Gathered(chunks, s, true, max) == Gathered(chunks, s, false, max) <==> !FillsAtEnd(s, max)
    ensures FillsAtEnd(s, max) ==> forall last ::
      |Flushed(Gathered(chunks, s, true, max), last)| != |Flushed(Gathered(chunks, s, false, max), last)|
  {
    if s != [] {
      TakeAllAfter(chunks, s[..|s| - 1], max);
      var w, v := TakeAll(Bare(chunks), s[..|s| - 1], max), TakeAll(Bare([]), s[..|s| - 1], max);
      assert AddByte(w, s[|s| - 1]).runs == AddByte(v, s[|s| - 1]).runs;
    }
  }

  /** The same bytes between the same flushes. */
  ghost predicate SamePlaces(a: seq<Seg>, b: seq<Seg>) {
    |a| == |b| && forall i {:trigger a[i]} {:trigger b[i]} :: 0 <= i < |a| ==>
      a[i].bytes == b[i].bytes && a[i].last == b[i].last
  }

  /** Where a flush took the last byte itself on one side only, that byte does not fill a block. */
  ghost predicate NoneDiffers(a: seq<Seg>, b: seq<Seg>, max: int)
    requires |a| == |b|
  {
    forall i {:trigger a[i]} {:trigger b[i]} ::
      0 <= i < |a| ==> a[i].joined == b[i].joined || !FillsAtEnd(a[i].bytes, max)
  }

  lemma SamePlacesFront(a: seq<Seg>, b: seq<Seg>)
    requires SamePlaces(a, b) && a != []
    ensures var m := |a| - 1; SamePlaces(a[..m], b[..m]) && a[m].bytes == b[m].bytes && a[m].last == b[m].last
  {
    var m := |a| - 1;
    assert a[m].bytes == b[m].bytes && a[m].last == b[m].last;
    assert forall i {:trigger a[..m][i]} {:trigger b[..m][i]} :: 0 <= i < m ==> a[..m][i] == a[i] && b[..m][i] == b[i];
  }

  lemma NoneDiffersFront(a: seq<Seg>, b: seq<Seg>, max: int)
    requires |a| == |b| && a != []
    ensures var m := |a| - 1; NoneDiffers(a, b, max) <==>
      NoneDiffers(a[..m], b[..m], max) && (a[m].joined == b[m].joined || !FillsAtEnd(a[m].bytes, max))
  {
    var m := |a| - 1;
    assert forall i {:trigger a[..m][i]} {:trigger b[..m][i]} :: 0 <= i < m ==> a[..m][i] == a[i] && b[..m][i] == b[i];
    if NoneDiffers(a, b, max) {
      assert a[m].joined == b[m].joined || !FillsAtEnd(a[m].bytes, max);
      forall i {:trigger a[..m][i]} {:trigger b[..m][i]} | 0 <= i < m
        ensures a[..m][i].joined == b[..m][i].joined || !FillsAtEnd(a[..m][i].bytes, max)
      {
        assert a[i].joined == b[i].joined || !FillsAtEnd(a[i].bytes, max);
      }
    }
    if NoneDiffers(a[..m], b[..m], max) && (a[m].joined == b[m].joined || !FillsAtEnd(a[m].bytes, max)) {
      forall i {:trigger a[i]} {:trigger b[i]} | 0 <= i < |a|
        ensures a[i].joined == b[i].joined || !FillsAtEnd(a[i].bytes, max)
      {
        if i < m { assert a[..m][i].joined == b[..m][i].joined || !FillsAtEnd(a[..m][i].bytes, max); }
      }
    }
  }

  /** The blocks are not the same from some block on. */
  ghost predicate Part(x: seq<Chunk>, y: seq<Chunk>) {
    exists i {:trigger x[i]} :: 0 <= i < |x| && i < |y| && x[i].data != y[i].data
  }

  lemma {:induction false} RunLen(w: Work, s: seq<int>, max: int)
    requires w.len >= 0
    ensures TakeAll(w, s, max).len >= 0
    decreases |s|
  {
    if s != [] { RunLen(w, s[..|s| - 1], max); }
  }

  /** A flush that takes the byte which fills the block puts more into the block. */
  lemma JoinedParts(chunks: seq<Chunk>, s: seq<int>, last: bool, max: int)
    requires FillsAtEnd(s, max) && 0 <= s[|s| - 1] < 256
    ensures var x, y := Flushed(Gathered(chunks, s, true, max), last), Flushed(Gathered(chunks, s, false, max), last);
      Part(x, y) && Part(y, x)
  {
    var w := Gathered(chunks, s, true, max);
    JoinedSame(chunks, s, max);
    TakeAllAfter(chunks, s[..|s| - 1], max);
    RunLen(Bare(chunks), s[..|s| - 1], max);
    EncodedMore(w.runs, Pair(w.ch, w.len));
    var x, y, n := Flushed(w, last), Flushed(Gathered(chunks, s, false, max), last), |w.chunks|;
    assert Gathered(chunks, s, false, max) == Close(w);
    assert |EncPair(Pair(w.ch, w.len))| > 0;
    assert x[n].data == Encoded(w.runs) + EncPair(Pair(w.ch, w.len)) && y[n].data == Encoded(w.runs);
  }

  lemma ChunksGrow(chunks: seq<Chunk>, g: Seg, max: int)
    ensures chunks <= Flushed(Gathered(chunks, g.bytes, g.joined, max), g.last)
  {
    TakeAllAfter(chunks, g.bytes, max);
    if g.bytes != [] { TakeAllAfter(chunks, g.bytes[..|g.bytes| - 1], max); }
  }

  lemma PartGrows(x: seq<Chunk>, y: seq<Chunk>, x': seq<Chunk>, y': seq<Chunk>)
    requires Part(x, y) && x <= x' && y <= y'
    ensures Part(x', y')
  {
    var i :| 0 <= i < |x| && i < |y| && x[i].data != y[i].data;
    assert x'[i] == x[i] && y'[i] == y[i];
  }

  /** The same bytes between the same flushes make the same blocks exactly when none of these bytes differs. */
  lemma {:induction false} SameBlocks(a: seq<Seg>, b: seq<Seg>, max: int)
    requires SamePlaces(a, b) && forall i {:trigger a[i]} :: 0 <= i < |a| ==> AreBytes(a[i].bytes)
    ensures if NoneDiffers(a, b, max) then AllChunks(a, max) == AllChunks(b, max)
      else Part(AllChunks(a, max), AllChunks(b, max)) && AllChunks(a, max) != AllChunks(b, max)
    decreases |a|
  {
    if a != [] {
      var m := |a| - 1;
      SamePlacesFront(a, b);
      NoneDiffersFront(a, b, max);
      assert AreBytes(a[m].bytes);
      assert forall i {:trigger a[..m][i]} :: 0 <= i < m ==> a[..m][i] == a[i];
      SameBlocks(a[..m], b[..m], max);
      var x, y := AllChunks(a[..m], max), AllChunks(b[..m], max);
      if NoneDiffers(a[..m], b[..m], max) {
        JoinedSame(x, a[m].bytes, max);
        if FillsAtEnd(a[m].bytes, max) { JoinedParts(x, a[m].bytes, a[m].last, max); }
      } else {
        ChunksGrow(x, a[m], max);
        ChunksGrow(y, b[m], max);
        PartGrows(x, y, AllChunks(a, max), AllChunks(b, max));
      }
    }
  }

  /** Two bytes in turn. */
  function Turns(n: nat): seq<int> { seq(n, i => i % 2) }

  function Singles(n: nat): seq<Pair> { seq(n, i => Pair(i % 2, 1)) }

  lemma {:induction false} SinglesEncoded(n: nat)
    ensures Encoded(Singles(n)) == Turns(n)
  {
    if n > 0 {
      SinglesEncoded(n - 1);
      assert Singles(n) == Singles(n - 1) + [Pair((n - 1) % 2, 1)];
      EncodedMore(Singles(n - 1), Pair((n - 1) % 2, 1));
      assert Turns(n) == Turns(n - 1) + Repeat((n - 1) % 2, 1);
    }
  }

  lemma {:induction false} TurnsTaken(n: nat, max: int)
    requires 1 <= n <= max
    ensures TakeAll(Bare([]), Turns(n), max) == Work([], Singles(n - 1), (n - 1) % 2, 1)
  {
    assert Turns(n)[..n - 1] == Turns(n - 1) && Turns(n)[n - 1] == (n - 1) % 2;
    if n == 1 {
      assert Turns(0) == [] && Singles(0) == [];
    } else {
      TurnsTaken(n - 1, max);
      assert Singles(n - 1) == Singles(n - 2) + [Pair((n - 2) % 2, 1)];
    }
    SinglesEncoded(n - 1);
  }

  /** What is in the block and in the run buffer when one byte more than a block holds has come. */
  lemma TurnsFill(max: int)
    requires max > 0
    ensures Gathered([], Turns(max + 1), true, max) == Work([], Singles(max), max % 2, 1)
    ensures Gathered([], Turns(max + 1), false, max) == Work([Chunk(Turns(max), false)], [], max % 2, 1)
  {
    TurnsLast(max);
    TurnsTaken(max, max);
    SinglesEncoded(max);
    GatheredEnds(Turns(max), max % 2, max);
  }

  lemma TurnsLast(n: nat)
    ensures Turns(n + 1) == Turns(n) + [n % 2] && Singles(n + 1) == Singles(n) + [Pair(n % 2, 1)]
    ensures n > 0 ==> n % 2 != (n - 1) % 2 && Singles(n) == Singles(n - 1) + [Pair((n - 1) % 2, 1)]
  {
  }

  lemma GatheredEnds(s: seq<int>, c: int, max: int)
    ensures Gathered([], s + [c], true, max) == AddByte(TakeAll(Bare([]), s, max), c)
    ensures Gathered([], s + [c], false, max) == Take(TakeAll(Bare([]), s, max), c, max)
  {
    assert (s + [c])[..|s|] == s;
  }

  lemma SinglesFlushed(max: int)
    requires max > 0
    ensures Flushed(Work([], Singles(max), max % 2, 1), true) == [Chunk(Turns(max + 1), true)]
  {
    SinglesEncoded(max + 1);
    assert Singles(max + 1) == Singles(max) + [Pair(max % 2, 1)];
    assert [] + [Chunk(Turns(max + 1), true)] == [Chunk(Turns(max + 1), true)];
  }

  lemma SingleFlushed(chunks: seq<Chunk>, c: int)
    requires 0 <= c < 256
    ensures Flushed(Work(chunks, [], c, 1), true) == chunks + [Chunk([c], true)]
  {
    EncodedMore([], Pair(c, 1));
    assert [] + [Pair(c, 1)] == [Pair(c, 1)] && Encoded([Pair(c, 1)]) == [c];
  }

  /** Two bytes in turn, one more of them than a block holds: a block and a byte when they are taken before the end, and
      a single block when the last call takes them. */
  lemma TurnsDiffer(max: int)
    requires max > 0
    ensures FillsAtEnd(Turns(max + 1), max)
    ensures AllChunks([Seg(Turns(max + 1), true, true)], max) == [Chunk(Turns(max + 1), true)]
    ensures AllChunks([Seg(Turns(max + 1), false, true)], max) == [Chunk(Turns(max), false), Chunk([max % 2], true)]
  {
    TurnsFill(max);
    SinglesEncoded(max);
    OneSeg(Seg(Turns(max + 1), true, true), max);
    OneSeg(Seg(Turns(max + 1), false, true), max);
    SinglesFlushed(max);
    SingleFlushed([Chunk(Turns(max), false)], max % 2);
  }

  lemma OneSeg(g: Seg, max: int)
    ensures AllChunks([g], max) == Flushed(Gathered([], g.bytes, g.joined, max), g.last)
  {
    assert [g][..0] == [];
  }

  /** The blocks that are made because they are full are full. */
  ghost predicate FullChunks(h: seq<Chunk>, n: nat, max: int) {
    n <= |h| && forall i {:trigger h[i]} :: 0 <= i < n ==> |h[i].data| >= max && !h[i].last
  }

  lemma {:induction false} TakeAllFull(s: seq<int>, max: int)
    ensures var w := TakeAll(Bare([]), s, max); FullChunks(w.chunks, |w.chunks|, max)
    decreases |s|
  {
    if s != [] { TakeAllFull(s[..|s| - 1], max); }
  }

  /** Without a flush every block but the last is full. */
  lemma OnlyLastShort(g: Seg, max: int)
    ensures var h := AllChunks([g], max); h != [] && FullChunks(h, |h| - 1, max) && h[|h| - 1].last == g.last
  {
    OneSeg(g, max);
    TakeAllFull(g.bytes, max);
    if g.bytes != [] { TakeAllFull(g.bytes[..|g.bytes| - 1], max); }
  }

  // ---- taking a few bytes at a time ----

  function AddBytes(w: Work, s: seq<int>): Work {
    if s == [] then w else AddByte(AddBytes(w, s[..|s| - 1]), s[|s| - 1])
  }

  /** s is taken into the block, which is not full before the last byte of it. */
  ghost predicate Adds(w: Work, s: seq<int>, v: Work, max: int) {
    v == AddBytes(w, s) && forall i {:trigger s[..i]} :: 0 <= i < |s| ==> !Full(AddBytes(w, s[..i]), max)
  }

  lemma AddsOne(w: Work, s: seq<int>, v: Work, c: int, max: int)
    requires Adds(w, s, v, max) && !Full(v, max)
    ensures Adds(w, s + [c], AddByte(v, c), max)
  {
    var t := s + [c];
    assert t[..|s|] == s;
    forall i {:trigger t[..i]} | 0 <= i < |t| ensures !Full(AddBytes(w, t[..i]), max) {
      if i < |s| { assert t[..i] == s[..i]; }
    }
  }

  lemma {:induction false} TakeAllPlus(w: Work, s: seq<int>, t: seq<int>, max: int)
    ensures TakeAll(w, s + t, max) == TakeAll(TakeAll(w, s, max), t, max)
    decreases |t|
  {
    if t == [] {
      assert s + t == s;
    } else {
      assert (s + t)[..|s + t| - 1] == s + t[..|t| - 1];
      TakeAllPlus(w, s, t[..|t| - 1], max);
    }
  }

  /** Before the block is full, taking is adding. */
  lemma {:induction false} AddsTakes(w: Work, s: seq<int>, v: Work, max: int)
    requires Adds(w, s, v, max) && !Full(v, max)
    ensures TakeAll(w, s, max) == v
    decreases |s|
  {
    if s != [] {
      var m := |s| - 1;
      AddsFront(w, s, v, max);
      AddsTakes(w, s[..m], AddBytes(w, s[..m]), max);
    }
  }

  lemma AddsFront(w: Work, s: seq<int>, v: Work, max: int)
    requires Adds(w, s, v, max) && s != []
    ensures var f := AddBytes(w, s[..|s| - 1]);
      Adds(w, s[..|s| - 1], f, max) && !Full(f, max) && v == AddByte(f, s[|s| - 1])
  {
    var r := s[..|s| - 1];
    forall i {:trigger r[..i]} | 0 <= i < |r| ensures !Full(AddBytes(w, r[..i]), max) { assert r[..i] == s[..i]; }
    assert s[..|s| - 1] == r;
  }

  /** The last byte fills it, and it is closed. */
  lemma AddsCloses(w: Work, s: seq<int>, v: Work, max: int)
    requires Adds(w, s, v, max) && Full(v, max) && s != []
    ensures TakeAll(w, s, max) == Close(v)
  {
    AddsFront(w, s, v, max);
    AddsTakes(w, s[..|s| - 1], AddBytes(w, s[..|s| - 1]), max);
  }

  /** A flush that takes some bytes, or none. */
  lemma AddsFlushes(chunks: seq<Chunk>, before: seq<int>, s: seq<int>, v: Work, max: int)
    requires Adds(TakeAll(Bare(chunks), before, max), s, v, max)
    ensures v == Gathered(chunks, before + s, s != [], max)
  {
    var w := TakeAll(Bare(chunks), before, max);
    if s == [] {
      assert before + s == before;
    } else {
      AddsFront(w, s, v, max);
      var r := s[..|s| - 1];
      AddsTakes(w, r, AddBytes(w, r), max);
      TakeAllPlus(Bare(chunks), before, r, max);
      assert (before + s)[..|before + s| - 1] == before + r;
    }
  }

  /** s is taken and there is room left; or s fills the block; or the run buffer is emptied behind s. */
  ghost predicate Stopped(w: Work, s: seq<int>, v: Work, max: int) { Adds(w, s, v, max) && !Full(v, max) }

  ghost predicate Filled(w: Work, s: seq<int>, v: Work, max: int) { Adds(w, s, v, max) && Full(v, max) }

  ghost predicate Emptied(w: Work, s: seq<int>, v: Work, max: int) {
    var m := AddBytes(w, s);
    Adds(w, s, m, max) && v == m.(runs := m.runs + Held(m), ch := 256, len := 0)
  }

  ghost function SegBytes(segs: seq<Seg>): seq<int> {
    if segs == [] then [] else SegBytes(segs[..|segs| - 1]) + segs[|segs| - 1].bytes
  }

  lemma SegMore(segs: seq<Seg>, g: Seg, max: int)
    ensures SegBytes(segs + [g]) == SegBytes(segs) + g.bytes
    ensures AllChunks(segs + [g], max) == Flushed(Gathered(AllChunks(segs, max), g.bytes, g.joined, max), g.last)
  {
    assert (segs + [g])[..|segs|] == segs;
  }

  /** Between blocks the block is not full. */
  lemma NotFull(chunks: seq<Chunk>, s: seq<int>, max: int)
    requires max > 0
    ensures !Full(TakeAll(Bare(chunks), s, max), max)
  {
  }

  lemma StepStops(chunks: seq<Chunk>, open: seq<int>, came: seq<int>, v: Work, max: int)
    requires Stopped(TakeAll(Bare(chunks), open, max), came, v, max)
    ensures v == TakeAll(Bare(chunks), open + came, max)
  {
    AddsTakes(TakeAll(Bare(chunks), open, max), came, v, max);
    TakeAllPlus(Bare(chunks), open, came, max);
  }

  lemma StepFills(chunks: seq<Chunk>, open: seq<int>, came: seq<int>, v: Work, max: int)
    requires max > 0 && Filled(TakeAll(Bare(chunks), open, max), came, v, max)
    ensures Close(v) == TakeAll(Bare(chunks), open + came, max)
  {
    NotFull(chunks, open, max);
    AddsCloses(TakeAll(Bare(chunks), open, max), came, v, max);
    TakeAllPlus(Bare(chunks), open, came, max);
  }

  lemma StepFlushes(segs: seq<Seg>, open: seq<int>, came: seq<int>, v: Work, last: bool, max: int)
    requires Emptied(TakeAll(Bare(AllChunks(segs, max)), open, max), came, v, max)
    ensures AllChunks(segs + [Seg(open + came, came != [], last)], max) == v.chunks + [Chunk(Encoded(v.runs), last)]
  {
    var w := TakeAll(Bare(AllChunks(segs, max)), open, max);
    AddsFlushes(AllChunks(segs, max), open, came, AddBytes(w, came), max);
    SegMore(segs, Seg(open + came, came != [], last), max);
  }

  // ---- where the input is flushed ----

  /** A flush, or the end, when so many bytes have been taken; joined says that it has itself taken some of them. */
  datatype Place = Place(at: nat, joined: bool, last: bool)

  ghost function Places(segs: seq<Seg>): seq<Place> {
    if segs == [] then []
    else
      var m := |segs| - 1;
      Places(segs[..m]) + [Place(|SegBytes(segs)|, segs[m].joined, segs[m].last)]
  }

  lemma {:induction false} PlacesLen(segs: seq<Seg>)
    ensures |Places(segs)| == |segs|
    ensures forall i {:trigger segs[i]} :: 0 <= i < |segs| ==>
      segs[i].joined == Places(segs)[i].joined && segs[i].last == Places(segs)[i].last
    decreases |segs|
  {
    if segs != [] {
      PlacesLen(segs[..|segs| - 1]);
      assert forall i {:trigger segs[i]} :: 0 <= i < |segs| - 1 ==> segs[..|segs| - 1][i] == segs[i];
    }
  }

  lemma PlacesMore(segs: seq<Seg>, g: Seg)
    ensures Places(segs + [g]) == Places(segs) + [Place(|SegBytes(segs)| + |g.bytes|, g.joined, g.last)]
  {
    var all := segs + [g];
    assert all[..|segs|] == segs;
    SegMore(segs, g, 1);
    PlacesEnd(all);
  }

  lemma PlacesEnd(segs: seq<Seg>)
    requires segs != []
    ensures var m := |segs| - 1;
      Places(segs) == Places(segs[..m]) + [Place(|SegBytes(segs)|, segs[m].joined, segs[m].last)]
  {
  }

  /** Flushed at the same places. */
  ghost predicate SameFlushes(p: seq<Place>, q: seq<Place>) {
    |p| == |q| && forall i {:trigger p[i]} {:trigger q[i]} :: 0 <= i < |p| ==>
      p[i].at == q[i].at && p[i].last == q[i].last
  }

  /** The same bytes, flushed at the same places. */
  lemma {:induction false} PlacesSame(a: seq<Seg>, b: seq<Seg>)
    requires SegBytes(a) == SegBytes(b) && SameFlushes(Places(a), Places(b))
    ensures SamePlaces(a, b)
    decreases |a|
  {
    PlacesLen(a);
    PlacesLen(b);
    if a != [] {
      var m, p, q := |a| - 1, Places(a), Places(b);
      assert p[m].at == q[m].at && p[m].last == q[m].last;
      assert p[..m] == Places(a[..m]) && q[..m] == Places(b[..m]);
      assert forall i {:trigger p[..m][i]} {:trigger q[..m][i]} ::
        0 <= i < m ==> p[..m][i] == p[i] && q[..m][i] == q[i];
      FrontBytes(a, b);
      PlacesSame(a[..m], b[..m]);
      SamePlacesMore(a, b);
    }
  }

  lemma SamePlacesMore(a: seq<Seg>, b: seq<Seg>)
    requires |a| == |b| && a != []
    requires var m := |a| - 1; SamePlaces(a[..m], b[..m]) && a[m].bytes == b[m].bytes && a[m].last == b[m].last
    ensures SamePlaces(a, b)
  {
    var m := |a| - 1;
    forall i {:trigger a[i]} {:trigger b[i]} | 0 <= i < |a| ensures a[i].bytes == b[i].bytes && a[i].last == b[i].last {
      if i < m { assert a[..m][i].bytes == b[..m][i].bytes && a[..m][i].last == b[..m][i].last; }
    }
  }

  lemma FrontBytes(a: seq<Seg>, b: seq<Seg>)
    requires |a| == |b| > 0 && SegBytes(a) == SegBytes(b) && SameFlushes(Places(a), Places(b))
    ensures var m := |a| - 1; SegBytes(a[..m]) == SegBytes(b[..m]) && a[m].bytes == b[m].bytes
  {
    var m := |a| - 1;
    PlacesLen(a);
    PlacesLen(b);
    var n := if m == 0 then 0 else Places(a)[m - 1].at;
    if m > 0 {
      PlacesLen(a[..m]);
      PlacesLen(b[..m]);
      assert Places(a)[m - 1] == Places(a[..m])[m - 1] && Places(b)[m - 1] == Places(b[..m])[m - 1];
    }
    assert |SegBytes(a[..m])| == n && |SegBytes(b[..m])| == n;
    assert SegBytes(a)[..n] == SegBytes(a[..m]) && SegBytes(b)[..n] == SegBytes(b[..m]);
    assert SegBytes(a)[n..] == a[m].bytes && SegBytes(b)[n..] == b[m].bytes;
  }

  // ---- what has been gathered so far ----

  /** The segments that have been flushed, and the bytes since then. */
  datatype Log = Log(segs: seq<Seg>, open: seq<int>)

  ghost predicate LoggedNow(w: Work, taken: seq<int>, log: Log, max: int, u: int) {
    w == TakeAll(Bare(AllChunks(log.segs, max)), log.open, max) && taken == SegBytes(log.segs) + log.open
  }

  /** The work is that of the bytes taken, flushed where the log says. Kept closed where it is only passed on. */
  ghost predicate Logged(w: Work, taken: seq<int>, log: Log, max: int) {
    forall u {:trigger Seen(log, u)} :: Seen(log, u) ==> LoggedNow(w, taken, log, max, u)
  }

  ghost predicate Seen(log: Log, u: int) { true }

  lemma LoggedOpens(w: Work, taken: seq<int>, log: Log, max: int)
    ensures Logged(w, taken, log, max) <==> LoggedNow(w, taken, log, max, 0)
  {
    assert Seen(log, 0);
    if LoggedNow(w, taken, log, max, 0) {
      forall u {:trigger Seen(log, u)} | Seen(log, u) ensures LoggedNow(w, taken, log, max, u) {
        assert LoggedNow(w, taken, log, max, 0);
      }
    }
  }

  lemma LoggedFirst(max: int)
    ensures Logged(Bare([]), [], Log([], []), max)
  {
    LoggedOpens(Bare([]), [], Log([], []), max);
  }

  lemma LoggedLen(w: Work, taken: seq<int>, log: Log, max: int)
    requires Logged(w, taken, log, max)
    ensures |taken| == |SegBytes(log.segs)| + |log.open|
  {
    LoggedOpens(w, taken, log, max);
  }

  lemma LogGrows(w: Work, taken: seq<int>, log: Log, max: int, came: seq<int>, v: Work)
    requires max > 0 && Logged(w, taken, log, max) && (Stopped(w, came, v, max) || Filled(w, came, v, max))
    ensures Logged(if Full(v, max) then Close(v) else v, taken + came, log.(open := log.open + came), max)
  {
    var chunks, next := AllChunks(log.segs, max), log.(open := log.open + came);
    LoggedOpens(w, taken, log, max);
    if Full(v, max) { StepFills(chunks, log.open, came, v, max); } else { StepStops(chunks, log.open, came, v, max); }
    OpenTaken(log, came);
    LoggedOpens(if Full(v, max) then Close(v) else v, taken + came, next, max);
  }

  lemma OpenTaken(log: Log, came: seq<int>)
    ensures (SegBytes(log.segs) + log.open) + came == SegBytes(log.segs) + (log.open + came)
  {
  }

  /** The log after a flush that took came. */
  function FlushLog(log: Log, came: seq<int>, last: bool): Log {
    Log(log.segs + [Seg(log.open + came, came != [], last)], [])
  }

  lemma FlushTaken(log: Log, came: seq<int>, last: bool)
    ensures SegBytes(FlushLog(log, came, last).segs) + [] == (SegBytes(log.segs) + log.open) + came
  {
    SegMore(log.segs, Seg(log.open + came, came != [], last), 1);
    OpenTaken(log, came);
  }

  /** The work after a flush. */
  function FlushWork(v: Work, last: bool): Work { Bare(v.chunks + [Chunk(Encoded(v.runs), last)]) }

  lemma LogFlushes(w: Work, taken: seq<int>, log: Log, max: int, came: seq<int>, v: Work, last: bool)
    requires Logged(w, taken, log, max) && Emptied(w, came, v, max)
    ensures Logged(FlushWork(v, last), taken + came, FlushLog(log, came, last), max)
  {
    LoggedOpens(w, taken, log, max);
    StepFlushes(log.segs, log.open, came, v, last, max);
    FlushTaken(log, came, last);
    LoggedOpens(FlushWork(v, last), taken + came, FlushLog(log, came, last), max);
  }

  lemma CameTaken(taken: seq<int>, all: seq<int>, now: seq<int>, rest: seq<int>, came: seq<int>)
    requires now + rest == taken + all && all == came + rest
    ensures now == taken + came
  {
    assert taken + all == (taken + came) + rest;
    assert now == (now + rest)[..|now|] && taken + came == ((taken + came) + rest)[..|now|];
  }

  /** What the input half of handle_compress does with the bytes it takes. Kept closed where it is only passed on. */
  ghost predicate WorkedOn(w: Work, came: seq<int>, v: Work, stop: bool, flushed: bool, max: int) {
    forall u {:trigger Shut(w, u)} :: Shut(w, u) ==> WorkedNow(w, came, v, stop, flushed, max, u)
  }

  ghost predicate Shut(w: Work, u: int) { true }

  ghost predicate WorkedNow(w: Work, came: seq<int>, v: Work, stop: bool, flushed: bool, max: int, u: int) {
    if stop then !flushed && Stopped(w, came, v, max)
    else if flushed then Emptied(w, came, v, max)
    else Filled(w, came, v, max)
  }

  lemma WorkedOpens(w: Work, came: seq<int>, v: Work, stop: bool, flushed: bool, max: int)
    ensures WorkedOn(w, came, v, stop, flushed, max) <==> WorkedNow(w, came, v, stop, flushed, max, 0)
  {
    assert Shut(w, 0);
    if WorkedNow(w, came, v, stop, flushed, max, 0) {
      forall u {:trigger Shut(w, u)} | Shut(w, u) ensures WorkedNow(w, came, v, stop, flushed, max, u) {
        assert WorkedNow(w, came, v, stop, flushed, max, 0);
      }
    }
  }

  /** And with the block that is then made: v is what the work was before that. */
  ghost predicate Turned(w: Work, came: seq<int>, v: Work, now: Work, stop: bool, flushed: bool, last: bool, max: int) {
    && WorkedOn(w, came, v, stop, flushed, max)
    && forall u {:trigger Shut(v, u)} :: Shut(v, u) ==> MadeOf(v, now, stop, flushed, last, u)
  }

  ghost predicate MadeOf(v: Work, now: Work, stop: bool, flushed: bool, last: bool, u: int) {
    now == if stop then v else if flushed then FlushWork(v, last) else Close(v)
  }

  lemma TurnedIs(w: Work, came: seq<int>, v: Work, now: Work, stop: bool, flushed: bool, last: bool, max: int)
    requires WorkedOn(w, came, v, stop, flushed, max) && (last ==> flushed)
    requires now == if stop then v else v.(chunks := v.chunks + [Chunk(Encoded(v.runs), last)], runs := [])
    ensures Turned(w, came, v, now, stop, flushed, last, max)
  {
    WorkedOpens(w, came, v, stop, flushed, max);
  }

  lemma TurnLogged(w: Work, taken: seq<int>, log: Log, max: int, came: seq<int>, v: Work, now: Work, stop: bool,
      flushed: bool, last: bool) returns (next: Log)
    requires max > 0 && Logged(w, taken, log, max) && Turned(w, came, v, now, stop, flushed, last, max)
    ensures next == if flushed then FlushLog(log, came, last) else log.(open := log.open + came)
    ensures Logged(now, taken + came, next, max)
  {
    WorkedOpens(w, came, v, stop, flushed, max);
    assert Shut(v, 0);
    assert MadeOf(v, now, stop, flushed, last, 0);
    next := if flushed then FlushLog(log, came, last) else log.(open := log.open + came);
    if flushed { LogFlushes(w, taken, log, max, came, v, last); } else { LogGrows(w, taken, log, max, came, v); }
  }
}
