/** What the bytes of a stream mean to the listener of a BufferedSocket: lines and data, in the order and amounts that
    the bytes alone determine. */
module Framing {
  /** MODE_LINE, or MODE_DATA with remainingSize, which is -1 for data without end. */
  datatype Mode = LineMode | DataMode(remaining: int)

  /** What the listener gets: a line, or one byte of data. */
  datatype Event = Line(text: seq<int>) | Data(byte: int)

  /** The separator, the longest line, and the mode the listener asks for after each line, given all it has
      seen. */
  datatype Rules = Rules(sep: int, maxLine: nat, decide: seq<Event> -> Mode)

  // ---- what the bytes mean ----

  datatype Frame = Frame(mode: Mode, partial: seq<int>, events: seq<Event>, failed: bool)

  /** Asking for no data is asking for lines. */
  function Settle(m: Mode): Mode { if m == DataMode(0) then LineMode else m }

  function Feed(k: Rules, f: Frame, b: int): Frame {
    if f.failed then f
    else match f.mode
      case LineMode =>
        if b == k.sep then
          var events := f.events + [Line(f.partial)];
          Frame(Settle((k.decide)(events)), [], events, false)
        else if |f.partial| >= k.maxLine then Frame(LineMode, [], f.events, true)
        else f.(partial := f.partial + [b])
      case DataMode(r) =>
        Frame(if r == 1 then LineMode else if r < 0 then f.mode else DataMode(r - 1), [], f.events + [Data(b)], false)
  }

  function FeedAll(k: Rules, f: Frame, s: seq<int>): Frame
    decreases |s|
  {
    if s == [] then f else FeedAll(k, Feed(k, f, s[0]), s[1..])
  }

  lemma {:induction false} FeedAppend(k: Rules, f: Frame, s: seq<int>, t: seq<int>)
    ensures FeedAll(k, f, s + t) == FeedAll(k, FeedAll(k, f, s), t)
    decreases |s|
  {
    if s == [] {
      assert s + t == t;
    } else {
      assert (s + t)[1..] == s[1..] + t;
      FeedAppend(k, Feed(k, f, s[0]), s[1..], t);
    }
  }

  lemma {:induction false} FeedFailed(k: Rules, f: Frame, s: seq<int>)
    requires f.failed
    ensures FeedAll(k, f, s) == f
    decreases |s|
  {
    if s != [] { FeedFailed(k, f, s[1..]); }
  }

  ghost predicate NoSep(s: seq<int>, sep: int) { forall i {:trigger s[i]} :: 0 <= i < |s| ==> s[i] != sep }

  /** Bytes of an unfinished line are kept, up to the longest line. */
  lemma {:induction false} FeedPart(k: Rules, f: Frame, s: seq<int>)
    requires !f.failed && f.mode == LineMode && NoSep(s, k.sep) && |f.partial| <= k.maxLine
    ensures FeedAll(k, f, s) ==
      if |f.partial| + |s| <= k.maxLine then f.(partial := f.partial + s)
      else Frame(LineMode, [], f.events, true)
    decreases |s|
  {
    if s != [] {
      var g := Feed(k, f, s[0]);
      if g.failed {
        FeedFailed(k, g, s[1..]);
      } else {
        FeedPart(k, g, s[1..]);
        assert f.partial + s == (f.partial + [s[0]]) + s[1..];
      }
    } else {
      assert f.partial + s == f.partial;
    }
  }

  /** A whole line. */
  lemma FeedLine(k: Rules, events: seq<Event>, line: seq<int>, tail: seq<int>)
    requires NoSep(line, k.sep)
    ensures var f, ev := Frame(LineMode, [], events, false), events + [Line(line)];
            FeedAll(k, f, line + [k.sep] + tail) ==
              if |line| <= k.maxLine then FeedAll(k, Frame(Settle((k.decide)(ev)), [], ev, false), tail)
                else Frame(LineMode, [], events, true)
  {
    var f := Frame(LineMode, [], events, false);
    assert line + [k.sep] + tail == line + ([k.sep] + tail);
    FeedAppend(k, f, line, [k.sep] + tail);
    FeedPart(k, f, line);
    var g := FeedAll(k, f, line);
    assert [] + line == line;
    if g.failed {
      FeedFailed(k, g, [k.sep] + tail);
    } else {
      assert ([k.sep] + tail)[1..] == tail;
    }
  }

  function DataEvents(s: seq<int>): (r: seq<Event>)
    ensures |r| == |s|
  {
    seq(|s|, i requires 0 <= i < |s| => Data(s[i]))
  }

  /** Data up to what was asked for. */
  lemma {:induction false} FeedData(k: Rules, r: int, events: seq<Event>, s: seq<int>, tail: seq<int>)
    requires r > 0 || r == -1
    requires r > 0 ==> |s| <= r
    ensures var m := if r < 0 then DataMode(r) else Settle(DataMode(r - |s|));
            FeedAll(k, Frame(DataMode(r), [], events, false), s + tail) ==
              FeedAll(k, Frame(m, [], events + DataEvents(s), false), tail)
    decreases |s|
  {
    if s == [] {
      assert s + tail == tail && events + DataEvents(s) == events;
    } else {
      assert (s + tail)[1..] == s[1..] + tail;
      assert events + DataEvents(s) == (events + [Data(s[0])]) + DataEvents(s[1..]);
      if r == 1 {
        assert s[1..] == [] && s[1..] + tail == tail
          && (events + [Data(s[0])]) + DataEvents([]) == events + [Data(s[0])];
      } else {
        FeedData(k, if r < 0 then r else r - 1, events + [Data(s[0])], s[1..], tail);
      }
    }
  }

  /** Each byte goes to exactly one event or stays in the unfinished line: nothing is lost or doubled. */
  function Bytes(k: Rules, events: seq<Event>): seq<int>
    decreases |events|
  {
    if events == [] then []
    else
      var e := events[|events| - 1];
      Bytes(k, events[..|events| - 1]) + match e case Line(t) => t + [k.sep] case Data(b) => [b]
  }

  lemma {:induction false} EveryByteOnce(k: Rules, f: Frame, s: seq<int>)
    requires (f.mode != LineMode ==> f.partial == []) && !FeedAll(k, f, s).failed
    ensures var g := FeedAll(k, f, s); Bytes(k, g.events) + g.partial == Bytes(k, f.events) + f.partial + s
    decreases |s|
  {
    if s == [] {
      assert f.partial + s == f.partial;
    } else {
      var g := Feed(k, f, s[0]);
      if g.failed { FeedFailed(k, g, s[1..]); }
      EveryByteOnce(k, g, s[1..]);
      ByteOnce(k, f, s[0]);
      Regroup(Bytes(k, f.events) + f.partial, s);
    }
  }

  lemma Regroup(a: seq<int>, s: seq<int>)
    requires s != []
    ensures a + s == a + [s[0]] + s[1..]
  {
  }

  lemma ByteOnce(k: Rules, f: Frame, b: int)
    requires (f.mode != LineMode ==> f.partial == []) && !Feed(k, f, b).failed && !f.failed
    ensures var g := Feed(k, f, b); Bytes(k, g.events) + g.partial == Bytes(k, f.events) + f.partial + [b]
  {
    var g, before := Feed(k, f, b), Bytes(k, f.events);
    if f.mode == LineMode {
      if b == k.sep {
        BytesMore(k, f.events, Line(f.partial));
        assert (before + (f.partial + [b])) + [] == before + f.partial + [b];
      } else {
        assert before + (f.partial + [b]) == before + f.partial + [b];
      }
    } else {
      BytesMore(k, f.events, Data(b));
      assert (before + [b]) + [] == before + [] + [b];
    }
  }

  lemma BytesMore(k: Rules, events: seq<Event>, e: Event)
    ensures Bytes(k, events + [e]) == Bytes(k, events) + match e case Line(t) => t + [k.sep] case Data(b) => [b]
  {
    assert (events + [e])[..|events|] == events;
  }

  // ---- what the listener asks for ----

  ghost predicate GoodMode(m: Mode) { m.LineMode? || m.remaining >= -1 }

  ghost predicate GoodRules(k: Rules) { forall ev {:trigger (k.decide)(ev)} :: GoodMode((k.decide)(ev)) }

  /** The listener asked for no data after these events. */
  ghost predicate AsksNone(k: Rules, events: seq<Event>) {
    events != [] && events[|events| - 1].Line? && (k.decide)(events) == DataMode(0)
  }

  /** The listener has asked for no data, and not a byte has come since. */
  ghost predicate Asks(k: Rules, f: Frame) { f.partial == [] && AsksNone(k, f.events) }

  // ---- a whole stream ----

  /** The frame every stream starts with. */
  function Start(): Frame { Frame(LineMode, [], [], false) }

  /** What the first p bytes of a stream mean. */
  ghost function After(k: Rules, stream: seq<int>, p: nat): Frame
    requires p <= |stream|
  {
    FeedAll(k, Start(), stream[..p])
  }

  lemma AfterMore(k: Rules, stream: seq<int>, p: nat, m: nat)
    requires p + m <= |stream|
    ensures After(k, stream, p + m) == FeedAll(k, After(k, stream, p), stream[p..p + m])
  {
    assert stream[..p] + stream[p..p + m] == stream[..p + m];
    FeedAppend(k, Start(), stream[..p], stream[p..p + m]);
  }

  lemma NextByte(k: Rules, stream: seq<int>, p: nat)
    requires p < |stream|
    ensures After(k, stream, p + 1) == Feed(k, After(k, stream, p), stream[p])
  {
    AfterMore(k, stream, p, 1);
    var f, b := After(k, stream, p), stream[p..p + 1];
    assert b[1..] == [] && FeedAll(k, f, b) == FeedAll(k, Feed(k, f, b[0]), []) == Feed(k, f, b[0]);
  }

  /** The frames of a stream, one for each number of bytes read. */
  ghost function Frames(k: Rules, stream: seq<int>): (r: seq<Frame>)
    ensures |r| == |stream| + 1 && forall p {:trigger r[p]} :: 0 <= p <= |stream| ==> r[p] == After(k, stream, p)
  {
    seq(|stream| + 1, p requires 0 <= p <= |stream| => After(k, stream, p))
  }

  /** Every frame comes from the one before by one byte. */
  ghost predicate Chain(k: Rules, stream: seq<int>, fs: seq<Frame>) {
    |fs| == |stream| + 1 && fs[0] == Start() && forall p {:trigger Linked(k, stream, fs, p)} :: 0 <= p < |stream| ==>
      Linked(k, stream, fs, p)
  }

  ghost predicate Linked(k: Rules, stream: seq<int>, fs: seq<Frame>, p: int) {
    0 <= p < |stream| && |fs| == |stream| + 1 && fs[p + 1] == Feed(k, fs[p], stream[p])
  }

  lemma FramesChain(k: Rules, stream: seq<int>)
    ensures Chain(k, stream, Frames(k, stream))
  {
    var fs := Frames(k, stream);
    assert stream[..0] == [];
    assert fs[0] == After(k, stream, 0);
    forall p {:trigger Linked(k, stream, fs, p)} | 0 <= p < |stream|
      ensures Linked(k, stream, fs, p)
    {
      NextByte(k, stream, p);
    }
  }

  lemma {:induction false} ChainOn(k: Rules, stream: seq<int>, fs: seq<Frame>, p: nat, n: nat)
    requires Chain(k, stream, fs) && p + n <= |stream|
    ensures fs[p + n] == FeedAll(k, fs[p], stream[p..p + n])
    decreases n
  {
    if n > 0 {
      assert Linked(k, stream, fs, p);
      assert stream[p..p + n][1..] == stream[p + 1..p + n];
      ChainOn(k, stream, fs, p + 1, n - 1);
    }
  }

  /** What has failed stays so. */
  lemma {:induction false} FailedStays(k: Rules, stream: seq<int>, fs: seq<Frame>, p: nat, q: nat)
    requires Chain(k, stream, fs) && p <= q < |fs| && !fs[q].failed
    ensures !fs[p].failed
    decreases q
  {
    if p < q {
      assert Linked(k, stream, fs, q - 1);
      FailedStays(k, stream, fs, p, q - 1);
    }
  }

  /** The modes that last: lines, or some data. An unfinished line is one of lines. */
  lemma {:induction false} GoodAfter(k: Rules, stream: seq<int>, fs: seq<Frame>, p: nat)
    requires GoodRules(k) && Chain(k, stream, fs) && p < |fs|
    ensures GoodMode(fs[p].mode) && fs[p].mode != DataMode(0) && (fs[p].partial != [] ==> fs[p].mode == LineMode)
    decreases p
  {
    if p > 0 {
      GoodAfter(k, stream, fs, p - 1);
      assert Linked(k, stream, fs, p - 1);
    }
  }

  /** Where the line unfinished at byte p starts; p itself when none is. */
  ghost function LineStart(fs: seq<Frame>, p: nat): int
    requires p < |fs|
  {
    p - |fs[p].partial|
  }

  /** Within an unfinished line. */
  lemma {:induction false} InLine(k: Rules, stream: seq<int>, fs: seq<Frame>, p: nat, x: int)
    requires Chain(k, stream, fs) && p < |fs| && !fs[p].failed && LineStart(fs, p) <= x <= p
    ensures 0 <= LineStart(fs, p) && |fs[x].partial| == x - LineStart(fs, p)
    ensures !fs[x].failed && (x < p ==> fs[x].mode == LineMode)
    decreases p
  {
    if p > 0 {
      assert Linked(k, stream, fs, p - 1);
      if x < p { InLine(k, stream, fs, p - 1, x); } else if fs[p].partial != [] { InLine(k, stream, fs, p - 1, x - 1); }
    }
  }

  /** Line starts come in order. */
  lemma {:induction false} StartsInOrder(k: Rules, stream: seq<int>, fs: seq<Frame>, p: nat, q: nat)
    requires Chain(k, stream, fs) && p <= q < |fs| && !fs[q].failed
    ensures 0 <= LineStart(fs, p) <= LineStart(fs, q) && !fs[p].failed
    decreases q
  {
    if p < q {
      assert Linked(k, stream, fs, q - 1);
      StartsInOrder(k, stream, fs, p, q - 1);
    } else {
      InLine(k, stream, fs, p, p);
    }
  }

  /** Data up to what was asked for leaves no unfinished line. */
  lemma {:induction false} DataRead(k: Rules, stream: seq<int>, fs: seq<Frame>, p: nat, n: nat)
    requires GoodRules(k) && Chain(k, stream, fs) && p + n < |fs| && !fs[p].failed && fs[p].mode != LineMode
    requires fs[p].mode.remaining < 0 || n <= fs[p].mode.remaining
    ensures fs[p + n].partial == [] && !fs[p + n].failed
    decreases n
  {
    GoodAfter(k, stream, fs, p);
    if n > 0 {
      assert Linked(k, stream, fs, p);
      if n > 1 { DataRead(k, stream, fs, p + 1, n - 1); }
    }
  }
}
