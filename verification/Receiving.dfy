/** The receiving side of BufferedSocket: bytes come in pieces of any size and go to the listener as lines and data. The
    class is proved to do what the bytes mean, and to read as its buffer allows. */
module Receiving {
  import opened SocketBuffer
  import opened Framing
  import opened Cuts

  /** memchr. */
  method FindSep(b: Buffer, sep: int) returns (found: bool, len: nat)
    requires b.Valid()
    ensures found ==> len < |b.Contents()| && b.Contents()[len] == sep && NoSep(b.Contents()[..len], sep)
    ensures !found ==> NoSep(b.Contents(), sep)
  {
    ghost var s := b.Contents();
    len := 0;
    while len < b.writePtr - b.readPtr
      invariant len <= |s| && NoSep(s[..len], sep)
    {
      assert b.buf[b.readPtr + len] == s[len];
      if b.buf[b.readPtr + len] == sep { return true, len; }
      assert s[..len + 1] == s[..len] + [s[len]];
      len := len + 1;
    }
    assert s[..len] == s;
    found := false;
  }

  class Receiver {
    const k: Rules
    const rb: Buffer
    var mode: Mode
    var events: seq<Event>
    var failed: bool

    ghost predicate Valid()
      reads this, rb
    {
      && rb.Valid() && GoodRules(k) && GoodMode(mode) && (mode == DataMode(0) ==> AsksNone(k, events))
      && (AsksNone(k, events) && rb.readPtr == rb.writePtr && !failed ==> mode == DataMode(0))
    }

    constructor (k: Rules, maxCapacity: nat)
      requires GoodRules(k) && INITIAL_CAPACITY <= maxCapacity
      ensures Valid() && fresh(rb) && fresh(rb.buf) && this.k == k && rb.maxCapacity == maxCapacity && mode == LineMode
        && events == [] && !failed && rb.Contents() == []
      ensures Idle() && Now() == Start() && rb.Shape() == Window(0, 0, 0)
    {
      this.k := k;
      rb := new Buffer(maxCapacity);
      mode, events, failed := LineMode, [], false;
    }

    /** The state without the bytes still in the buffer. */
    ghost function Base(): Frame
      reads this
    {
      Frame(Settle(mode), [], events, failed)
    }

    /** The state, with the bytes in the buffer taken as read. */
    ghost function Now(): Frame
      reads this, rb, rb.buf
      requires rb.Valid()
    {
      FeedAll(k, Base(), rb.Contents())
    }

    /** Nothing in the buffer can be acted on. */
    ghost predicate Idle()
      reads this, rb, rb.buf
      requires rb.Valid()
    {
      failed || rb.Contents() == [] || (mode == LineMode && NoSep(rb.Contents(), k.sep) && |rb.Contents()| <= k.maxLine)
    }

    /** The line of len bytes at the front of the buffer goes out, if it is not too long. */
    method TakeLine(len: nat)
      requires Valid() && mode == LineMode && !failed && len < |rb.Contents()| && rb.Contents()[len] == k.sep
        && NoSep(rb.Contents()[..len], k.sep)
      modifies this`mode, this`events, this`failed, rb`readPtr
      ensures Valid() && Now() == old(Now()) && (failed ==> mode == LineMode)
      ensures !failed ==> |rb.Contents()| < |old(rb.Contents())|
      ensures failed ==> rb.readPtr == old(rb.readPtr)
    {
      ghost var s := rb.Contents();
      var line := rb.buf[rb.readPtr..rb.readPtr + len];
      ghost var tail := s[len + 1..];
      assert line == s[..len] && s == line + [k.sep] + tail;
      FeedLine(k, events, line, tail);
      if len > k.maxLine {
        failed := true;
        FeedFailed(k, Base(), s);
        return;
      }
      events := events + [Line(line)];
      rb.readPtr := rb.readPtr + len + 1;
      assert rb.Contents() == tail;
      mode := (k.decide)(events);
    }

    /** parseData: hands out the lines in the buffer, until the mode changes. */
    method ParseData()
      requires Valid() && mode == LineMode && !failed
      modifies this`mode, this`events, this`failed, rb`readPtr
      ensures Valid() && Now() == old(Now()) && (mode == LineMode ==> Idle())
      ensures mode != LineMode ==> !failed && |rb.Contents()| < |old(rb.Contents())|
    {
      while rb.readPtr < rb.writePtr
        invariant Valid() && mode == LineMode && !failed && Now() == old(Now())
          && |rb.Contents()| <= |old(rb.Contents())|
        decreases rb.writePtr - rb.readPtr
      {
        var found, len := FindSep(rb, k.sep);
        if !found {
          FeedPart(k, Base(), rb.Contents());
          if rb.writePtr - rb.readPtr > k.maxLine {
            failed := true;
            FeedFailed(k, Base(), rb.Contents());
          }
          break;
        }
        TakeLine(len);
        if failed || mode != LineMode { break; }
      }
    }

    /** onData with all there is, up to what was asked for. */
    method TakeData()
      requires Valid() && mode != LineMode && mode != DataMode(0) && !failed && rb.Contents() != []
      modifies this`mode, this`events, rb`readPtr
      ensures Valid() && Now() == old(Now()) && |rb.Contents()| < |old(rb.Contents())| && mode != DataMode(0)
    {
      ghost var s := rb.Contents();
      var size := rb.writePtr - rb.readPtr;
      if mode.remaining != -1 && mode.remaining < size { size := mode.remaining; }
      var data := rb.buf[rb.readPtr..rb.readPtr + size];
      assert data == s[..size] && s == data + s[size..];
      FeedData(k, mode.remaining, events, data, s[size..]);
      events := events + DataEvents(data);
      if mode.remaining != -1 {
        mode := DataMode(mode.remaining - size);
        if mode.remaining == 0 { mode := LineMode; }
      }
      rb.readPtr := rb.readPtr + size;
      assert rb.Contents() == s[size..];
    }

    /** consumeData: hands out data until no more was asked for. */
    method ConsumeData()
      requires Valid() && mode != LineMode && !failed
      modifies this`mode, this`events, rb`readPtr
      ensures Valid() && Now() == old(Now()) && |rb.Contents()| <= |old(rb.Contents())|
      ensures mode != LineMode ==> rb.Contents() == []
      ensures mode == LineMode && old(mode) != DataMode(0) ==> |rb.Contents()| < |old(rb.Contents())|
    {
      while rb.readPtr < rb.writePtr
        invariant Valid() && mode != LineMode && Now() == old(Now()) && |rb.Contents()| <= |old(rb.Contents())|
        invariant mode == DataMode(0) ==> old(mode) == DataMode(0)
        decreases rb.writePtr - rb.readPtr
      {
        if mode.remaining == 0 { mode := LineMode; break; }
        TakeData();
        if mode == LineMode { break; }
      }
    }

    /** The inner loop of readData: works through the buffer while the mode changes. */
    method Process()
      requires Valid() && !failed
      modifies this`mode, this`events, this`failed, rb`readPtr
      ensures Valid() && Now() == old(Now()) && Idle()
    {
      while rb.readPtr < rb.writePtr
        invariant Valid() && !failed && Now() == old(Now())
        decreases rb.writePtr - rb.readPtr, if mode == DataMode(0) then 1 else 0
      {
        if mode == LineMode {
          ParseData();
          if failed || mode == LineMode { break; }
        } else {
          ConsumeData();
          if mode != LineMode { break; }
        }
      }
    }

    /** How many bytes to ask for. */
    method ReadSize() returns (n: nat)
      requires Valid()
      modifies rb
      ensures Valid() && rb.Contents() == old(rb.Contents()) && (rb.buf == old(rb.buf) || fresh(rb.buf))
        && rb.writePtr + n <= rb.buf.Length
      ensures rb.Shape() == Ready(old(rb.Shape()), rb.maxCapacity) && n == Wanted(mode, rb.Shape()) && rb.buf.Length > 0
    {
      if rb.writePtr == rb.buf.Length { rb.Grow(); }
      n := rb.buf.Length - rb.writePtr;
      if mode != LineMode && mode.remaining != -1 && n > mode.remaining { n := mode.remaining; }
    }

    /** One turn of readData, when the socket has avail to give: reads some of it and acts on it. A read that would ask
        for no bytes at all is answered like a closed connection. */
    method ReadTurn(avail: seq<int>) returns (n: nat, closed: bool)
      requires Valid() && !failed && avail != []
      modifies this`mode, this`events, this`failed, rb, rb.buf
      ensures Valid() && n <= |avail| && (closed <==> n == 0) && (rb.buf == old(rb.buf) || fresh(rb.buf))
      ensures var want := Wanted(old(mode), Ready(old(rb.Shape()), rb.maxCapacity));
        n == if want < |avail| then want else |avail|
      ensures Now() == FeedAll(k, old(Now()), avail[..n])
      ensures closed ==> mode == old(mode) && events == old(events) && !failed && rb.Contents() == old(rb.Contents())
      ensures closed ==> rb.Shape() == Ready(old(rb.Shape()), rb.maxCapacity) && (old(Idle()) ==> Idle())
      ensures !closed ==> Idle()
      ensures !closed && !failed ==>
        rb.Shape() == Absorbed(Ready(old(rb.Shape()), rb.maxCapacity), n, |rb.Contents()|, rb.maxCapacity)
    {
      ghost var was, part := Base(), rb.Contents();
      n := ReadSize();
      if n > |avail| { n := |avail|; }
      closed := n == 0;
      FeedAppend(k, was, part, avail[..n]);
      if closed {
        assert avail[..0] == [];
        return;
      }
      Absorb(avail[..n]);
    }

    /** Takes in what has been read and acts on it. */
    method Absorb(data: seq<int>)
      requires Valid() && !failed && data != [] && rb.writePtr + |data| <= rb.buf.Length
      modifies this`mode, this`events, this`failed, rb, rb.buf
      ensures Valid() && Idle() && Now() == old(FeedAll(k, Base(), rb.Contents() + data))
        && (rb.buf == old(rb.buf) || fresh(rb.buf))
      ensures !failed ==> rb.Shape() == Absorbed(old(rb.Shape()), |data|, |rb.Contents()|, rb.maxCapacity)
    {
      rb.Copy(data);
      var resize := rb.writePtr == rb.buf.Length;
      Process();
      TidyUp(resize);
    }

    /** Makes room for the next read. */
    method TidyUp(resize: bool)
      requires Valid() && Idle()
      modifies rb, rb.buf
      ensures Valid() && Idle() && Now() == old(Now()) && rb.Contents() == old(rb.Contents())
        && (rb.buf == old(rb.buf) || fresh(rb.buf))
      ensures rb.Shape() == Shifted(if resize then Grown(old(rb.Shape()), rb.maxCapacity) else old(rb.Shape()))
    {
      if resize { rb.Grow(); }
      rb.MaybeShift();
    }
  }

  // ---- a whole stream ----

  /** A socket with nothing to act on has handed out all it can, and holds the unfinished line. */
  lemma IdleMeans(s: Receiver)
    requires s.Valid() && s.Idle()
    ensures s.Now().events == s.events && s.Now().failed == s.failed
    ensures !s.failed ==> s.Now().partial == s.rb.Contents() && s.mode == ModeOf(s.k, s.Now())
  {
    if s.failed {
      FeedFailed(s.k, s.Base(), s.rb.Contents());
    } else if s.mode == LineMode {
      FeedPart(s.k, s.Base(), s.rb.Contents());
      assert [] + s.rb.Contents() == s.rb.Contents();
    }
  }

  /** The socket stands where a reading says. */
  ghost predicate Follows(s: Receiver, x: Flow, r: Reading)
    reads s, s.rb, s.rb.buf
  {
    && s.Valid() && s.Idle() && s.k == x.k && s.rb.maxCapacity == x.maxCapacity && Within(x, r.p)
    && s.Now() == x.fs[r.p] && (!s.failed ==> s.rb.Shape() == r.w)
  }

  /** One read does what a turn says. */
  method Follow(s: Receiver, stream: seq<int>, p: nat, m: nat, ghost x: Flow, ghost r: Reading)
      returns (p': nat, closed: bool)
    requires Good(x) && Open(x, r) && Follows(s, x, r) && r.w.cap >= 0 && 0 < m && p == r.p && p + m <= |stream|
      && stream == x.stream
    modifies s`mode, s`events, s`failed, s.rb, s.rb.buf
    ensures Follows(s, x, Turn(x, r, m)) && p' == Turn(x, r, m).p && closed == Turn(x, r, m).closed
      && (s.rb.buf == old(s.rb.buf) || fresh(s.rb.buf))
  {
    IdleMeans(s);
    ghost var mode := s.mode;
    var n;
    n, closed := s.ReadTurn(stream[p..p + m]);
    p' := p + n;
    TurnReads(x, r, m, mode, n);
    ReadMeans(x, p, m, n);
    IdleMeans(s);
  }

  lemma ReadMeans(x: Flow, p: nat, m: nat, n: nat)
    requires Good(x) && n <= m && p + m <= |x.stream|
    ensures FeedAll(x.k, x.fs[p], x.stream[p..p + m][..n]) == x.fs[p + n]
  {
    assert x.stream[p..p + m][..n] == x.stream[p..p + n];
    ChainOn(x.k, x.stream, x.fs, p, n);
  }

  /** Kept closed where it is only passed on. */
  ghost predicate Tracks(s: Receiver, x: Flow, r: Reading)
    reads s, s.rb, s.rb.buf
  {
    forall u {:trigger Shown(x, u)} :: Shown(x, u) ==> Follows(s, x, r)
  }

  method Track(s: Receiver, stream: seq<int>, p: nat, piece: nat, ghost x: Flow, ghost r: Reading)
      returns (p': nat, closed: bool)
    requires Good(x) && Open(x, r) && Tracks(s, x, r) && r.w.cap >= 0 && p == r.p && stream == x.stream
    modifies s`mode, s`events, s`failed, s.rb, s.rb.buf
    ensures Tracks(s, x, OneMore(x, r, piece)) && p' == OneMore(x, r, piece).p && closed == OneMore(x, r, piece).closed
    ensures s.rb.buf == old(s.rb.buf) || fresh(s.rb.buf)
  {
    assert Shown(x, 0);
    var m := if p + piece <= |stream| then piece else |stream| - p;
    if m == 0 { return p, false; }
    p', closed := Follow(s, stream, p, m, x, r);
  }

  lemma TracksFailed(s: Receiver, x: Flow, r: Reading)
    requires Tracks(s, x, r)
    ensures Within(x, r.p) && s.failed == x.fs[r.p].failed && s.events == x.fs[r.p].events && s.k == x.k
      && s.rb.maxCapacity == x.maxCapacity
    ensures s.Valid()
      && (!s.failed ==> s.rb.Contents() == x.fs[r.p].partial && s.rb.Shape() == r.w && s.mode == ModeOf(s.k, x.fs[r.p]))
  {
    assert Shown(x, 0);
    IdleMeans(s);
  }

  /** Nothing more is read once something has ended the reading. */
  lemma {:induction false} RunEnds(x: Flow, pieces: seq<nat>, i: nat)
    requires x.fs != [] && i <= |pieces| && !Open(x, Run(x, pieces[..i]))
    ensures Run(x, pieces) == Run(x, pieces[..i])
    decreases |pieces|
  {
    if i == |pieces| {
      assert pieces[..i] == pieces;
    } else {
      var front := pieces[..|pieces| - 1];
      assert front[..i] == pieces[..i];
      RunEnds(x, front, i);
    }
  }

  /** What a socket has done when it stands where a reading says. */
  ghost predicate Stood(s: Receiver, x: Flow, r: Reading)
    reads s, s.rb, s.rb.buf
  {
    && s.Valid() && s.k == x.k && s.rb.maxCapacity == x.maxCapacity && Within(x, r.p)
    && s.events == x.fs[r.p].events && s.failed == x.fs[r.p].failed
    && (!s.failed ==> s.rb.Contents() == x.fs[r.p].partial && s.mode == ModeOf(s.k, x.fs[r.p]) && s.rb.Shape() == r.w)
  }

  /** Reads a stream in pieces of any sizes. The socket stops where Run says, and the listener has got what the bytes
      up to there mean and no more. */
  method Receive(k: Rules, maxCapacity: nat, stream: seq<int>, pieces: seq<nat>)
      returns (s: Receiver, p: nat, closed: bool)
    requires GoodRules(k) && INITIAL_CAPACITY <= maxCapacity
    ensures var x := FlowOf(k, maxCapacity, stream); var r := Run(x, pieces);
      p == r.p && closed == r.closed && Stood(s, x, r)
  {
    s := new Receiver(k, maxCapacity);
    p, closed := 0, false;
    ghost var x := FlowOf(k, maxCapacity, stream);
    FlowGood(k, maxCapacity, stream);
    ghost var r := Reading(0, Window(0, 0, 0), false);
    assert pieces[..0] == [];
    assert Tracks(s, x, r);
    for i := 0 to |pieces|
      invariant fresh(s) && fresh(s.rb) && fresh(s.rb.buf)
      invariant r == Run(x, pieces[..i]) && p == r.p && closed == r.closed && Tracks(s, x, r)
    {
      TracksFailed(s, x, r);
      if closed || s.failed { RunEnds(x, pieces, i); return; }
      p, closed := Track(s, stream, p, pieces[i], x, r);
      r := OneMore(x, r, pieces[i]);
      assert pieces[..i + 1][..i] == pieces[..i];
    }
    TracksFailed(s, x, r);
    assert pieces[..|pieces|] == pieces;
  }

  /** Two ways to cut a stream that get equally far tell the listener the same, and leave the same in the buffer. */
  method TwoCuts(k: Rules, maxCapacity: nat, stream: seq<int>, pieces: seq<nat>, others: seq<nat>)
      returns (s: Receiver, t: Receiver, p: nat, q: nat)
    requires GoodRules(k) && INITIAL_CAPACITY <= maxCapacity
    ensures var x := FlowOf(k, maxCapacity, stream);
      && Stood(s, x, Run(x, pieces)) && Stood(t, x, Run(x, others)) && p == Run(x, pieces).p && q == Run(x, others).p
    ensures p == q ==>
      s.events == t.events && s.failed == t.failed && (!s.failed ==> s.rb.Contents() == t.rb.Contents())
    ensures ShortLines(FlowOf(k, maxCapacity, stream)) && Reads(pieces) >= |stream| && Reads(others) >= |stream| ==>
      (s.failed || p == |stream|) && (t.failed || q == |stream|)
  {
    ghost var x := FlowOf(k, maxCapacity, stream);
    FlowGood(k, maxCapacity, stream);
    var c, d;
    s, p, c := Receive(k, maxCapacity, stream, pieces);
    t, q, d := Receive(k, maxCapacity, stream, others);
    if ShortLines(x) {
      ShortNeverClosed(x, pieces);
      ShortNeverClosed(x, others);
    }
    if !s.failed && !c { Progress(x, pieces); }
    if !t.failed && !d { Progress(x, others); }
  }
}
