/** How the cut of a stream into reads decides what the buffer of a BufferedSocket holds, and whether a read can be
    blocked: readData followed by capacity and positions alone. */
module Cuts {
  import opened SocketBuffer
  import opened Framing

  /** A stream with what its bytes mean, and the largest buffer. */
  datatype Flow = Flow(k: Rules, maxCapacity: nat, stream: seq<int>, fs: seq<Frame>)

  ghost predicate Good(x: Flow) { GoodRules(x.k) && INITIAL_CAPACITY <= x.maxCapacity && Chain(x.k, x.stream, x.fs) }

  ghost function FlowOf(k: Rules, maxCapacity: nat, stream: seq<int>): Flow {
    Flow(k, maxCapacity, stream, Frames(k, stream))
  }

  lemma FlowGood(k: Rules, maxCapacity: nat, stream: seq<int>)
    requires GoodRules(k) && INITIAL_CAPACITY <= maxCapacity
    ensures Good(FlowOf(k, maxCapacity, stream))
  {
    FramesChain(k, stream);
  }

  /** A byte of the stream, or its end. */
  ghost predicate Within(x: Flow, p: int) { 0 <= p < |x.fs| }

  // ---- one read ----

  /** How many bytes a read asks for in a mode. */
  function Wanted(m: Mode, w: Window): int {
    if m.LineMode? || m.remaining == -1 || w.cap - w.end <= m.remaining then w.cap - w.end else m.remaining
  }

  /** The mode the socket is in when it has handed out all it can. */
  ghost function ModeOf(k: Rules, f: Frame): Mode { if Asks(k, f) then DataMode(0) else f.mode }

  /** The buffer that a read fills. */
  function Ready(w: Window, maxCapacity: nat): Window
    requires w.cap >= 0
  {
    if w.end == w.cap then Grown(w, maxCapacity) else w
  }

  /** The buffer after n more bytes, of which the last left ones cannot be handed out yet. */
  function Absorbed(w: Window, n: int, left: int, maxCapacity: nat): Window
    requires w.cap >= 0
  {
    var v := Window(w.cap, w.end + n - left, w.end + n);
    Shifted(if v.end == v.cap then Grown(v, maxCapacity) else v)
  }

  /** How far a stream has been read, the buffer, and whether the last read asked for nothing, which the socket takes
      for a closed connection. */
  datatype Reading = Reading(p: nat, w: Window, closed: bool)

  /** One turn of readData with m bytes to be had. */
  ghost function Turn(x: Flow, r: Reading, m: nat): (t: Reading)
    requires Within(x, r.p + m) && r.w.cap >= 0
    ensures r.p <= t.p <= r.p + m && (t.closed ==> t.p == r.p) && (!t.closed ==> r.p < t.p) && t.w.cap >= 0
  {
    var w := Ready(r.w, x.maxCapacity);
    var want := Wanted(ModeOf(x.k, x.fs[r.p]), w);
    var n := if want < m then want else m;
    if n <= 0 then Reading(r.p, w, true)
    else Reading(r.p + n, Absorbed(w, n, |x.fs[r.p + n].partial|, x.maxCapacity), false)
  }

  /** A read can be made: nothing has ended the reading. */
  ghost predicate Open(x: Flow, r: Reading) { Within(x, r.p) && !r.closed && !x.fs[r.p].failed }

  /** What is known of the buffer between reads: it holds the unfinished line, does not start beyond the middle, and its
      first byte is one where something started. */
  ghost predicate Holds(x: Flow, p: nat, w: Window) {
    && Within(x, p) && 0 <= w.start <= w.end <= w.cap <= x.maxCapacity && w.end - w.start == |x.fs[p].partial|
    && 2 * w.start <= w.cap && (w.start == w.end ==> w.end == 0) && w.end <= p
    && (w.end == w.cap ==> w.cap == x.maxCapacity || (w.cap == 0 && p == 0))
    && (w.cap == 0 || w.cap >= INITIAL_CAPACITY)
    && x.fs[p - w.end].partial == [] && (w.end > 0 ==> x.fs[p - w.end].mode == LineMode)
  }

  ghost predicate Sound(x: Flow, r: Reading) {
    Within(x, r.p) && r.w.cap >= 0 && (!x.fs[r.p].failed ==> Holds(x, r.p, r.w))
  }

  lemma ReadySound(x: Flow, p: nat, w: Window)
    requires Good(x) && Holds(x, p, w)
    ensures var v := Ready(w, x.maxCapacity);
      && Holds(x, p, v) && v.cap >= INITIAL_CAPACITY && v.end == w.end && v.start == w.start && (w.cap > 0 ==> v == w)
  {
  }

  /** From w at byte p to v at byte q: the buffer starts where it did or with the unfinished line; it grows when it has
      been filled. */
  ghost predicate MovedNow(x: Flow, p: nat, w: Window, q: nat, v: Window, u: int)
    requires w.cap >= 0
  {
    && Holds(x, q, v) && p < q && Within(x, p) && q - p <= Wanted(ModeOf(x.k, x.fs[p]), w)
    && (q - v.end == p - w.end || q - v.end == LineStart(x.fs, q))
    && (if q - p + w.end == w.cap < x.maxCapacity
          then v.cap == Twice(w.cap, x.maxCapacity) && q - v.end == LineStart(x.fs, q)
        else v.cap == w.cap)
  }

  /** The same, kept closed where it is only passed on. */
  ghost predicate Moved(x: Flow, p: nat, w: Window, q: nat, v: Window)
    requires w.cap >= 0
  {
    forall u {:trigger Shown(x, u)} :: Shown(x, u) ==> MovedNow(x, p, w, q, v, u)
  }

  ghost predicate Shown(x: Flow, u: int) { true }

  lemma MovedOpens(x: Flow, p: nat, w: Window, q: nat, v: Window)
    requires w.cap >= 0
    ensures Moved(x, p, w, q, v) <==> MovedNow(x, p, w, q, v, 0)
  {
    assert Shown(x, 0);
    if MovedNow(x, p, w, q, v, 0) {
      forall u {:trigger Shown(x, u)} | Shown(x, u) ensures MovedNow(x, p, w, q, v, u) {
        assert MovedNow(x, p, w, q, v, 0);
      }
    }
  }

  lemma AbsorbedSound(x: Flow, p: nat, w: Window, q: nat)
    requires Good(x) && p < q && Within(x, q) && Holds(x, p, w) && INITIAL_CAPACITY <= w.cap
    requires q - p <= Wanted(ModeOf(x.k, x.fs[p]), w) && !x.fs[q].failed
    ensures Moved(x, p, w, q, Absorbed(w, q - p, |x.fs[q].partial|, x.maxCapacity))
  {
    ReadFacts(x, p, w, q - p);
    WindowFacts(x, p, w, q);
    MovedOpens(x, p, w, q, Absorbed(w, q - p, |x.fs[q].partial|, x.maxCapacity));
  }

  /** The bytes read are those of the buffer, which starts no later than the unfinished line. */
  ghost predicate Bounds(x: Flow, p: nat, w: Window, q: nat) {
    && Within(x, q) && 0 <= p - w.end <= LineStart(x.fs, q) && p < q <= p - w.end + w.cap
    && var a, b := p - w.end, LineStart(x.fs, q);
       && x.fs[b].partial == [] && (b < q ==> x.fs[b].mode == LineMode && x.fs[a].mode == LineMode)
  }

  lemma ReadFacts(x: Flow, p: nat, w: Window, n: nat)
    requires Good(x) && Within(x, p + n) && Holds(x, p, w) && INITIAL_CAPACITY <= w.cap
    requires 0 < n <= Wanted(ModeOf(x.k, x.fs[p]), w) && !x.fs[p + n].failed
    ensures Bounds(x, p, w, p + n)
  {
    var q := p + n;
    GoodAfter(x.k, x.stream, x.fs, p);
    StartsInOrder(x.k, x.stream, x.fs, p - w.end, q);
    StartsInOrder(x.k, x.stream, x.fs, p, q);
    InLine(x.k, x.stream, x.fs, q, LineStart(x.fs, q));
    if w.end == 0 && x.fs[p].mode != LineMode { DataRead(x.k, x.stream, x.fs, p, n); }
  }

  lemma WindowFacts(x: Flow, p: nat, w: Window, q: nat)
    requires INITIAL_CAPACITY <= x.maxCapacity && Holds(x, p, w) && INITIAL_CAPACITY <= w.cap && Bounds(x, p, w, q)
    requires q - p <= Wanted(ModeOf(x.k, x.fs[p]), w)
    ensures MovedNow(x, p, w, q, Absorbed(w, q - p, |x.fs[q].partial|, x.maxCapacity), 0)
  {
  }

  lemma TurnSound(x: Flow, r: Reading, m: nat)
    requires Good(x) && Open(x, r) && Holds(x, r.p, r.w) && Within(x, r.p + m)
    ensures var t, w := Turn(x, r, m), Ready(r.w, x.maxCapacity);
      && Holds(x, r.p, w) && w.cap >= INITIAL_CAPACITY && w.end == r.w.end && w.start == r.w.start
      && (if t.closed then t.w == w else !x.fs[t.p].failed ==> Moved(x, r.p, w, t.p, t.w))
  {
    ReadySound(x, r.p, r.w);
    TurnIs(x, r, m);
    var t := Turn(x, r, m);
    if !t.closed && !x.fs[t.p].failed { AbsorbedSound(x, r.p, Ready(r.w, x.maxCapacity), t.p); }
  }

  /** A turn, for a socket in this mode that reads n bytes. */
  lemma TurnReads(x: Flow, r: Reading, m: nat, mode: Mode, n: nat)
    requires Within(x, r.p + m) && r.w.cap >= 0 && mode == ModeOf(x.k, x.fs[r.p])
    requires var want := Wanted(mode, Ready(r.w, x.maxCapacity)); n == if want < m then want else m
    ensures Turn(x, r, m) ==
      if n == 0 then Reading(r.p, Ready(r.w, x.maxCapacity), true)
      else Reading(r.p + n, Absorbed(Ready(r.w, x.maxCapacity), n, |x.fs[r.p + n].partial|, x.maxCapacity), false)
  {
  }

  lemma TurnIs(x: Flow, r: Reading, m: nat)
    requires Within(x, r.p + m) && r.w.cap >= 0
    ensures var t, w := Turn(x, r, m), Ready(r.w, x.maxCapacity);
      && (t.closed ==> t.w == w)
      && (!t.closed ==>
            t.p - r.p <= Wanted(ModeOf(x.k, x.fs[r.p]), w)
              && t.w == Absorbed(w, t.p - r.p, |x.fs[t.p].partial|, x.maxCapacity))
  {
  }

  // ---- a whole stream ----

  /** The turns of readData when the stream comes in pieces of these sizes, each what is to be had for one read. */
  ghost function Run(x: Flow, pieces: seq<nat>): (r: Reading)
    requires x.fs != []
    ensures Within(x, r.p) && r.w.cap >= 0
    decreases |pieces|
  {
    if pieces == [] then Reading(0, Window(0, 0, 0), false)
      else OneMore(x, Run(x, pieces[..|pieces| - 1]), pieces[|pieces| - 1])
  }

  /** What there is of a piece. */
  ghost function Part(x: Flow, r: Reading, piece: nat): nat
    requires Within(x, r.p)
  {
    if r.p + piece < |x.fs| then piece else |x.fs| - 1 - r.p
  }

  ghost function OneMore(x: Flow, r: Reading, piece: nat): (t: Reading)
    requires Within(x, r.p) && r.w.cap >= 0
    ensures r.p <= t.p && Within(x, t.p) && t.w.cap >= 0
  {
    if Open(x, r) && Part(x, r, piece) > 0 then Turn(x, r, Part(x, r, piece)) else r
  }

  lemma RunMore(x: Flow, pieces: seq<nat>, piece: nat)
    requires x.fs != []
    ensures Run(x, pieces + [piece]) == OneMore(x, Run(x, pieces), piece)
  {
    assert (pieces + [piece])[..|pieces|] == pieces;
  }

  lemma StepSound(x: Flow, r: Reading, piece: nat)
    requires Good(x) && Sound(x, r)
    ensures Sound(x, OneMore(x, r, piece))
  {
    if Open(x, r) {
      TurnSound(x, r, Part(x, r, piece));
      MovedOpens(x, r.p, Ready(r.w, x.maxCapacity), OneMore(x, r, piece).p, OneMore(x, r, piece).w);
    }
  }

  lemma {:induction false} RunSound(x: Flow, pieces: seq<nat>)
    requires Good(x)
    ensures Sound(x, Run(x, pieces))
    decreases |pieces|
  {
    if pieces != [] {
      RunSound(x, pieces[..|pieces| - 1]);
      StepSound(x, Run(x, pieces[..|pieces| - 1]), pieces[|pieces| - 1]);
    }
  }

  // ---- what can block a read ----

  /** Something starts at byte b. */
  ghost predicate Boundary(x: Flow, b: int) { Within(x, b) && !x.fs[b].failed && x.fs[b].partial == [] }

  /** A buffer that starts with byte b can be filled up to c bytes. */
  ghost predicate Fillable(x: Flow, b: int, c: int) {
    && Boundary(x, b) && 0 <= c && Within(x, b + c) && !x.fs[b + c].failed
    && (x.fs[b].mode.LineMode? || x.fs[b].mode.remaining == -1 || c <= x.fs[b].mode.remaining)
  }

  /** The capacities a buffer goes through. */
  function Level(i: nat, maxCapacity: nat): nat { Twice(if i == 0 then 0 else Level(i - 1, maxCapacity), maxCapacity) }

  /** A buffer of the i-th capacity may start with byte b: the buffer before it can be filled, and the line then
      unfinished starts at b or earlier. */
  ghost predicate Base(x: Flow, i: nat, b: int) {
    Boundary(x, b) && (i == 0 || exists a {:trigger Base(x, i - 1, a)} :: Base(x, i - 1, a) && Outgrown(x, i - 1, a, b))
  }

  ghost predicate Outgrown(x: Flow, i: nat, a: int, b: int) {
    Fillable(x, a, Level(i, x.maxCapacity)) && LineStart(x.fs, a + Level(i, x.maxCapacity)) <= b
  }

  /** A read at byte p can be blocked: the listener has asked for no data, or p is where a buffer of the largest size is
      full, of which the unfinished line takes half or more. */
  ghost predicate Blockable(x: Flow, p: int) {
    && Within(x, p + 1) && 0 <= p && !x.fs[p].failed
    && (Asks(x.k, x.fs[p]) || exists i {:trigger FullAt(x, i, p)} :: FullAt(x, i, p))
  }

  ghost predicate FullAt(x: Flow, i: int, p: int) {
    && i >= 0 && Level(i, x.maxCapacity) == x.maxCapacity && Base(x, i, p - x.maxCapacity)
    && Fillable(x, p - x.maxCapacity, x.maxCapacity) && 2 * |x.fs[p].partial| >= x.maxCapacity
  }

  lemma BaseLater(x: Flow, i: nat, b: int, c: int)
    requires Base(x, i, b) && b <= c && Boundary(x, c)
    ensures Base(x, i, c)
  {
    if i > 0 {
      var a :| Base(x, i - 1, a) && Outgrown(x, i - 1, a, b);
      assert Outgrown(x, i - 1, a, c);
    }
  }

  /** The buffer of a reading is one of these. */
  ghost predicate Based(x: Flow, r: Reading, i: nat)
    requires r.w.cap >= 0
  {
    Ready(r.w, x.maxCapacity).cap == Level(i, x.maxCapacity) && Base(x, i, r.p - r.w.end)
  }

  lemma MovedBased(x: Flow, p: nat, w: Window, q: nat, v: Window, i: nat) returns (j: nat)
    requires Good(x) && Holds(x, p, w) && 0 < w.cap == Level(i, x.maxCapacity) && Base(x, i, p - w.end) && p < q
    requires MovedNow(x, p, w, q, v, 0) && !x.fs[q].failed
    ensures v.cap == Level(j, x.maxCapacity) && Base(x, j, q - v.end)
  {
    var b, c := p - w.end, q - v.end;
    StartsInOrder(x.k, x.stream, x.fs, b, q);
    StartsInOrder(x.k, x.stream, x.fs, c, q);
    j := i;
    if q - b == w.cap < x.maxCapacity {
      assert Outgrown(x, i, b, c);
      j := i + 1;
    } else {
      BaseLater(x, i, b, c);
    }
  }

  lemma {:induction false} RunBased(x: Flow, pieces: seq<nat>) returns (i: nat)
    requires Good(x) && !x.fs[Run(x, pieces).p].failed
    ensures Based(x, Run(x, pieces), i)
    decreases |pieces|
  {
    i := 0;
    if pieces != [] {
      var r := Run(x, pieces[..|pieces| - 1]);
      StartsInOrder(x.k, x.stream, x.fs, r.p, Run(x, pieces).p);
      i := RunBased(x, pieces[..|pieces| - 1]);
      RunSound(x, pieces[..|pieces| - 1]);
      i := StepBased(x, r, pieces[|pieces| - 1], i);
    }
  }

  lemma StepBased(x: Flow, r: Reading, piece: nat, i: nat) returns (j: nat)
    requires Good(x) && Sound(x, r) && Based(x, r, i) && !x.fs[OneMore(x, r, piece).p].failed
    ensures Based(x, OneMore(x, r, piece), j)
  {
    j := i;
    if Open(x, r) && Part(x, r, piece) > 0 {
      var m := Part(x, r, piece);
      TurnSound(x, r, m);
      var t := Turn(x, r, m);
      MovedOpens(x, r.p, Ready(r.w, x.maxCapacity), t.p, t.w);
      if !t.closed { j := MovedBased(x, r.p, Ready(r.w, x.maxCapacity), t.p, t.w, i); }
      ReadySound(x, t.p, t.w);
    }
  }

  /** Only a blockable place blocks. */
  lemma TurnBlocked(x: Flow, r: Reading, m: nat, i: nat)
    requires Good(x) && Open(x, r) && Holds(x, r.p, r.w) && 0 < m && Within(x, r.p + m) && Based(x, r, i)
      && Turn(x, r, m).closed
    ensures Blockable(x, r.p)
    ensures r.w.start == 0 ==> Asks(x.k, x.fs[r.p]) || |x.fs[r.p].partial| == x.maxCapacity
  {
    ReadySound(x, r.p, r.w);
    GoodAfter(x.k, x.stream, x.fs, r.p);
    if !Asks(x.k, x.fs[r.p]) { assert FullAt(x, i, r.p); }
  }

  lemma {:induction false} ClosedBlocked(x: Flow, pieces: seq<nat>)
    requires Good(x) && Run(x, pieces).closed
    ensures Blockable(x, Run(x, pieces).p)
    decreases |pieces|
  {
    var r := Run(x, pieces[..|pieces| - 1]);
    if r.closed {
      ClosedBlocked(x, pieces[..|pieces| - 1]);
    } else {
      RunSound(x, pieces[..|pieces| - 1]);
      var i := RunBased(x, pieces[..|pieces| - 1]);
      TurnBlocked(x, r, Part(x, r, pieces[|pieces| - 1]), i);
    }
  }

  // ---- cuts that get somewhere ----

  /** A reading with the unfinished line, and nothing else, in a buffer of capacity c or more. */
  ghost predicate Neat(x: Flow, r: Reading, c: int) {
    Open(x, r) && Holds(x, r.p, r.w) && r.w.start == 0 && Ready(r.w, x.maxCapacity).cap >= c
  }

  /** One byte more. */
  lemma OneByte(x: Flow, r: Reading, c: int)
    requires Good(x) && Neat(x, r, c) && Within(x, r.p + 1)
    ensures var t := Turn(x, r, 1);
      t.closed || (t.p == r.p + 1 && (!x.fs[t.p].failed ==> Neat(x, t, c)))
  {
    TurnSound(x, r, 1);
    assert Linked(x.k, x.stream, x.fs, r.p);
    var t := Turn(x, r, 1);
    MovedOpens(x, r.p, Ready(r.w, x.maxCapacity), t.p, t.w);
    if !t.closed && !x.fs[t.p].failed { ReadySound(x, t.p, t.w); }
  }

  /** Some cut comes to this reading. */
  ghost predicate Reached(x: Flow, r: Reading) {
    x.fs != [] && exists pieces {:trigger Run(x, pieces)} :: Run(x, pieces) == r
  }

  lemma ReachedMore(x: Flow, r: Reading, m: nat)
    requires Reached(x, r) && Open(x, r) && r.w.cap >= 0 && 0 < m && Within(x, r.p + m)
    ensures Reached(x, Turn(x, r, m))
  {
    var pieces :| Run(x, pieces) == r;
    RunMore(x, pieces, m);
  }

  lemma FirstReached(x: Flow)
    requires Good(x)
    ensures Reached(x, Reading(0, Window(0, 0, 0), false))
  {
    assert Run(x, []) == Reading(0, Window(0, 0, 0), false);
  }

  /** Single bytes, up to byte q. */
  lemma {:induction false} ByteByByte(x: Flow, r: Reading, q: nat, c: int) returns (t: Reading)
    requires Good(x) && Reached(x, r) && Neat(x, r, c) && r.p <= q && Within(x, q) && !x.fs[q].failed
    ensures Reached(x, t) && (t.closed || (t.p == q && Neat(x, t, c)))
    decreases q - r.p
  {
    t := r;
    if r.p < q {
      StartsInOrder(x.k, x.stream, x.fs, r.p + 1, q);
      OneByte(x, r, c);
      ReachedMore(x, r, 1);
      t := Turn(x, r, 1);
      if !t.closed { t := ByteByByte(x, t, q, c); }
    }
  }

  /** The buffer starts with byte b. */
  ghost predicate Stands(x: Flow, r: Reading, b: int, c: int) { Neat(x, r, c) && r.p - r.w.end == b }

  lemma GoTo(x: Flow, r: Reading, b: int, c: int) returns (t: Reading)
    requires Good(x) && Reached(x, r) && Neat(x, r, c) && LineStart(x.fs, r.p) <= b && Boundary(x, b)
    ensures Reached(x, t) && (t.closed || Stands(x, t, b, c))
  {
    t := r;
    if b != LineStart(x.fs, r.p) {
      if b <= r.p { InLine(x.k, x.stream, x.fs, r.p, b); }
      t := ByteByByte(x, r, b, c);
    }
  }

  /** One read that fills the buffer. */
  lemma Fill(x: Flow, r: Reading, a: int, c: int, q: nat)
    requires Good(x) && Stands(x, r, a, c) && Ready(r.w, x.maxCapacity).cap == c && Fillable(x, a, c)
      && r.p < q == a + c
    ensures var t, w := Turn(x, r, q - r.p), Ready(r.w, x.maxCapacity);
      && Holds(x, r.p, w) && w.cap >= INITIAL_CAPACITY
      && (t.closed
            || (t.p == q && t.w == Absorbed(w, q - r.p, |x.fs[q].partial|, x.maxCapacity) && Moved(x, r.p, w, q, t.w)))
  {
    ReadySound(x, r.p, r.w);
    FillWants(x, r, c);
    TurnSound(x, r, q - r.p);
    TurnIs(x, r, q - r.p);
  }

  lemma FillWants(x: Flow, r: Reading, c: int)
    requires Good(x) && Open(x, r) && Holds(x, r.p, r.w) && Ready(r.w, x.maxCapacity).cap == c
      && Fillable(x, r.p - r.w.end, c)
    ensures Asks(x.k, x.fs[r.p]) || Wanted(ModeOf(x.k, x.fs[r.p]), Ready(r.w, x.maxCapacity)) == c - r.w.end
  {
    ReadySound(x, r.p, r.w);
    GoodAfter(x.k, x.stream, x.fs, r.p);
  }

  lemma {:induction false} Capacities(x: Flow, i: nat, j: nat)
    requires Good(x) && i <= j
    ensures INITIAL_CAPACITY <= Level(i, x.maxCapacity) <= Level(j, x.maxCapacity) <= x.maxCapacity
    decreases j
  {
    if i < j { Capacities(x, i, j - 1); } else if i > 0 { Capacities(x, i - 1, i - 1); }
  }

  /** The capacity is one of the levels, so it is level i or at least the next. */
  lemma CapacityIs(x: Flow, r: Reading, i: nat)
    requires Good(x) && Reached(x, r) && r.w.cap >= 0 && !x.fs[r.p].failed
      && Ready(r.w, x.maxCapacity).cap >= Level(i, x.maxCapacity)
    ensures var c := Ready(r.w, x.maxCapacity).cap;
      c == Level(i, x.maxCapacity) || c >= Level(i + 1, x.maxCapacity)
  {
    var j := ReachedLevel(x, r);
    if j <= i { Capacities(x, j, i); } else { Capacities(x, i + 1, j); }
  }

  lemma ReachedLevel(x: Flow, r: Reading) returns (j: nat)
    requires Good(x) && Reached(x, r) && !x.fs[r.p].failed
    ensures r.w.cap >= 0 && Ready(r.w, x.maxCapacity).cap == Level(j, x.maxCapacity)
  {
    var pieces :| Run(x, pieces) == r;
    j := RunBased(x, pieces);
  }

  /** A filled buffer that is not of the largest size grows. */
  lemma FillGrows(x: Flow, r: Reading, a: int, c: int)
    requires Good(x) && Stands(x, r, a, c) && Ready(r.w, x.maxCapacity).cap == c < x.maxCapacity && Fillable(x, a, c)
    ensures r.p < a + c
    ensures var t := Turn(x, r, a + c - r.p);
      t.closed || (t.p == a + c && Neat(x, t, Twice(c, x.maxCapacity)))
  {
    ReadySound(x, r.p, r.w);
    Fill(x, r, a, c, a + c);
    var t := Turn(x, r, a + c - r.p);
    MovedOpens(x, r.p, Ready(r.w, x.maxCapacity), t.p, t.w);
    if !t.closed { ReadySound(x, t.p, t.w); }
  }

  /** Some cut makes the buffer start where it may. */
  lemma {:induction false} AtBase(x: Flow, i: nat, b: int) returns (r: Reading)
    requires Good(x) && Base(x, i, b)
    ensures Reached(x, r) && (r.closed || Stands(x, r, b, Level(i, x.maxCapacity)))
    decreases i
  {
    if i == 0 {
      FirstReached(x);
      r := GoTo(x, Reading(0, Window(0, 0, 0), false), b, Level(0, x.maxCapacity));
    } else {
      var a :| Base(x, i - 1, a) && Outgrown(x, i - 1, a, b);
      r := AtBase(x, i - 1, a);
      if !r.closed { r := NextBase(x, r, i - 1, a, b); }
    }
  }

  lemma NextBase(x: Flow, r: Reading, i: nat, a: int, b: int) returns (t: Reading)
    requires Good(x) && Reached(x, r) && Stands(x, r, a, Level(i, x.maxCapacity)) && Outgrown(x, i, a, b)
      && Boundary(x, b)
    ensures Reached(x, t) && (t.closed || Stands(x, t, b, Level(i + 1, x.maxCapacity)))
  {
    var c, d := Level(i, x.maxCapacity), Level(i + 1, x.maxCapacity);
    CapacityIs(x, r, i);
    Capacities(x, i, i + 1);
    t := Grow(x, r, a, c, d);
    if !t.closed { t := GoTo(x, t, b, d); }
  }

  lemma Grow(x: Flow, r: Reading, a: int, c: nat, d: nat) returns (t: Reading)
    requires Good(x) && Reached(x, r) && Stands(x, r, a, c) && Fillable(x, a, c)
      && c <= d == Twice(c, x.maxCapacity) <= x.maxCapacity
    requires Ready(r.w, x.maxCapacity).cap == c || Ready(r.w, x.maxCapacity).cap >= d
    ensures Reached(x, t) && (t.closed || (Neat(x, t, d) && LineStart(x.fs, t.p) <= LineStart(x.fs, a + c)))
  {
    if Ready(r.w, x.maxCapacity).cap >= d {
      t := r;
      BeforeFull(x, r, a, c);
    } else {
      FillGrows(x, r, a, c);
      ReachedMore(x, r, a + c - r.p);
      t := Turn(x, r, a + c - r.p);
    }
  }

  lemma BeforeFull(x: Flow, r: Reading, a: int, c: nat)
    requires Good(x) && Stands(x, r, a, c) && Fillable(x, a, c)
    ensures LineStart(x.fs, r.p) <= LineStart(x.fs, a + c)
  {
    StartsInOrder(x.k, x.stream, x.fs, a, a + c);
  }

  /** The largest buffer is filled up to byte p, and the next read is blocked. */
  lemma CloseFull(x: Flow, r: Reading, p: nat) returns (t: Reading)
    requires Good(x) && Reached(x, r) && Stands(x, r, p - x.maxCapacity, x.maxCapacity) && Within(x, p + 1)
    requires Fillable(x, p - x.maxCapacity, x.maxCapacity) && 2 * |x.fs[p].partial| >= x.maxCapacity
    ensures Reached(x, t) && t.closed
  {
    FillStays(x, r, p - x.maxCapacity, x.maxCapacity, p);
    t := r;
    if r.p < p {
      ReachedMore(x, r, p - r.p);
      t := Turn(x, r, p - r.p);
    }
    if !t.closed {
      FullBlocks(x, t);
      ReachedMore(x, t, 1);
      t := Turn(x, t, 1);
    }
  }

  lemma FillStays(x: Flow, r: Reading, a: int, c: int, p: nat)
    requires Good(x) && Stands(x, r, a, c) && Within(x, p + 1) && c == x.maxCapacity && p == a + c
    requires Fillable(x, a, c) && 2 * |x.fs[p].partial| >= x.maxCapacity
    ensures r.p <= p
    ensures r.p == p ==> r.w.cap == r.w.end == x.maxCapacity
    ensures r.p < p ==> var t := Turn(x, r, p - r.p); t.closed || (t.p == p && t.w.cap == t.w.end == x.maxCapacity)
  {
    ReadySound(x, r.p, r.w);
    var w, n := Ready(r.w, x.maxCapacity), p - r.p;
    if r.p < p {
      StaysPut(x.maxCapacity, w, n, |x.fs[p].partial|);
      Fill(x, r, a, c, p);
    }
  }

  /** A long unfinished line stays where it is. */
  lemma StaysPut(maxCapacity: nat, w: Window, n: int, left: int)
    requires w.cap == maxCapacity > 0 && maxCapacity <= 2 * left && w.end + n == maxCapacity
    ensures var v := Absorbed(w, n, left, maxCapacity); v.cap == v.end == maxCapacity
  {
  }

  lemma FullBlocks(x: Flow, r: Reading)
    requires Good(x) && Within(x, r.p + 1) && r.w.cap == r.w.end == x.maxCapacity && !x.fs[r.p].failed
    ensures Turn(x, r, 1).closed
  {
    GoodAfter(x.k, x.stream, x.fs, r.p);
  }

  /** Whether some cut of the stream is blocked is decided by the stream: exactly when it has a blockable place. */
  lemma SomeCutCloses(x: Flow)
    requires Good(x)
    ensures (exists pieces {:trigger Run(x, pieces)} :: Run(x, pieces).closed) <==>
      (exists p {:trigger Blockable(x, p)} :: Blockable(x, p))
  {
    if pieces :| Run(x, pieces).closed { ClosedBlocked(x, pieces); }
    if p :| Blockable(x, p) {
      var r := CloseBy(x, p);
      var pieces :| Run(x, pieces) == r;
    }
  }

  lemma CloseBy(x: Flow, p: nat) returns (r: Reading)
    requires Good(x) && Blockable(x, p)
    ensures Reached(x, r) && r.closed
  {
    if Asks(x.k, x.fs[p]) {
      FirstReached(x);
      r := ByteByByte(x, Reading(0, Window(0, 0, 0), false), p, 0);
      if !r.closed { ReachedMore(x, r, 1); r := Turn(x, r, 1); }
    } else {
      var i :| FullAt(x, i, p);
      r := AtBase(x, i, p - x.maxCapacity);
      if !r.closed { r := CloseFull(x, r, p); }
    }
  }

  // ---- cuts that are never blocked ----

  /** No line, nor the unfinished one at the end, takes half the largest buffer, and data is asked for only to get some.
      */
  ghost predicate ShortLines(x: Flow) {
    forall p {:trigger x.fs[p]} :: 0 <= p < |x.fs| ==> 2 * |x.fs[p].partial| < x.maxCapacity && !Asks(x.k, x.fs[p])
  }

  /** Then no cut at all is blocked. */
  lemma ShortNeverClosed(x: Flow, pieces: seq<nat>)
    requires Good(x) && ShortLines(x)
    ensures !Run(x, pieces).closed
  {
    if Run(x, pieces).closed { ClosedBlocked(x, pieces); }
  }

  /** How many of the pieces are not empty. */
  function Reads(pieces: seq<nat>): (r: nat) {
    if pieces == [] then 0 else Reads(pieces[..|pieces| - 1]) + if pieces[|pieces| - 1] > 0 then 1 else 0
  }

  /** Every piece moves on, until a line is too long or a read is blocked. */
  lemma {:induction false} Progress(x: Flow, pieces: seq<nat>)
    requires x.fs != [] && Open(x, Run(x, pieces))
    ensures Run(x, pieces).p == |x.fs| - 1 || Run(x, pieces).p >= Reads(pieces)
    decreases |pieces|
  {
    if pieces != [] && Open(x, Run(x, pieces[..|pieces| - 1])) { Progress(x, pieces[..|pieces| - 1]); }
  }

  /** All of the stream is read, or all up to a line that is too long. */
  ghost predicate Delivers(x: Flow, pieces: seq<nat>)
    requires x.fs != []
  {
    var r := Run(x, pieces);
    !r.closed && (r.p == |x.fs| - 1 || x.fs[r.p].failed)
  }

  /** The listener asks for data only to get some, as far as more bytes follow. */
  ghost predicate NeverAsks(x: Flow) { forall p {:trigger x.fs[p]} :: 0 <= p < |x.fs| - 1 ==> !Asks(x.k, x.fs[p]) }

  /** No unfinished line with more to follow takes the largest buffer. */
  ghost predicate Fits(x: Flow) {
    forall p {:trigger x.fs[p]} :: 0 <= p < |x.fs| - 1 && !x.fs[p].failed ==> |x.fs[p].partial| < x.maxCapacity
  }

  function Ones(n: nat): seq<nat> { seq(n, _ => 1) }

  /** Byte by byte, a read is blocked only by a line that takes the whole buffer. */
  lemma NeatBlocked(x: Flow, r: Reading)
    requires Good(x) && Neat(x, r, 0) && Within(x, r.p + 1) && Turn(x, r, 1).closed
    ensures Asks(x.k, x.fs[r.p]) || |x.fs[r.p].partial| == x.maxCapacity
  {
    ReadySound(x, r.p, r.w);
    GoodAfter(x.k, x.stream, x.fs, r.p);
  }

  ghost predicate SingleBytes(pieces: seq<nat>) {
    forall i {:trigger pieces[i]} :: 0 <= i < |pieces| ==> pieces[i] <= 1
  }

  lemma SinglesFront(pieces: seq<nat>)
    requires SingleBytes(pieces) && pieces != []
    ensures SingleBytes(pieces[..|pieces| - 1]) && pieces[|pieces| - 1] <= 1
  {
    var front := pieces[..|pieces| - 1];
    forall i {:trigger front[i]} | 0 <= i < |front| ensures front[i] <= 1 { assert pieces[i] <= 1; }
  }

  /** Where the reading of single bytes stands. */
  ghost predicate Bytewise(x: Flow, r: Reading) {
    && Within(x, r.p) && r.w.cap >= 0 && (Open(x, r) ==> Neat(x, r, 0))
    && (r.closed ==> Asks(x.k, x.fs[r.p]) || |x.fs[r.p].partial| == x.maxCapacity)
  }

  lemma ByteStep(x: Flow, r: Reading, piece: nat)
    requires Good(x) && Bytewise(x, r) && piece <= 1
    ensures Bytewise(x, OneMore(x, r, piece))
  {
    if Open(x, r) && Part(x, r, piece) > 0 {
      OneByte(x, r, 0);
      if Turn(x, r, 1).closed { NeatBlocked(x, r); }
    }
  }

  /** A cut into single bytes is blocked only by a line that takes the whole buffer, or by a listener that asks for
      nothing. */
  lemma {:induction false} SinglesNeat(x: Flow, pieces: seq<nat>)
    requires Good(x) && SingleBytes(pieces)
    ensures Bytewise(x, Run(x, pieces))
    decreases |pieces|
  {
    if pieces != [] {
      SinglesFront(pieces);
      SinglesNeat(x, pieces[..|pieces| - 1]);
      ByteStep(x, Run(x, pieces[..|pieces| - 1]), pieces[|pieces| - 1]);
    }
  }

  lemma {:induction false} OnesDeliver(x: Flow, n: nat)
    requires Good(x) && NeverAsks(x) && Fits(x) && Within(x, n)
    ensures var r := Run(x, Ones(n)); !r.closed && (x.fs[r.p].failed || (r.p == n && Neat(x, r, 0)))
    decreases n
  {
    if n == 0 {
      assert Ones(0) == [];
    } else {
      OnesDeliver(x, n - 1);
      assert Ones(n) == Ones(n - 1) + [1];
      RunMore(x, Ones(n - 1), 1);
      var r := Run(x, Ones(n - 1));
      if !x.fs[r.p].failed {
        OneByte(x, r, 0);
        if Turn(x, r, 1).closed { NeatBlocked(x, r); }
      }
    }
  }

  /** No read gets past a line that takes the whole buffer. */
  lemma TurnNotPast(x: Flow, r: Reading, m: nat, p: nat)
    requires Good(x) && Open(x, r) && Holds(x, r.p, r.w) && Within(x, r.p + m) && Within(x, p) && r.p <= p
    requires !x.fs[p].failed && |x.fs[p].partial| >= x.maxCapacity
    ensures Turn(x, r, m).p <= p
  {
    ReadySound(x, r.p, r.w);
    StartsInOrder(x.k, x.stream, x.fs, r.p, p);
    GoodAfter(x.k, x.stream, x.fs, r.p);
    TurnIs(x, r, m);
  }

  lemma {:induction false} RunNotPast(x: Flow, pieces: seq<nat>, p: nat)
    requires Good(x) && Within(x, p) && !x.fs[p].failed && |x.fs[p].partial| >= x.maxCapacity
    ensures Run(x, pieces).p <= p
    decreases |pieces|
  {
    if pieces != [] {
      RunNotPast(x, pieces[..|pieces| - 1], p);
      RunSound(x, pieces[..|pieces| - 1]);
      var r := Run(x, pieces[..|pieces| - 1]);
      if Open(x, r) { TurnNotPast(x, r, Part(x, r, pieces[|pieces| - 1]), p); }
    }
  }

  /** Some cut gets the stream through exactly when no line takes the whole buffer, and then the cut into single bytes
      does. */
  lemma SomeCutDelivers(x: Flow)
    requires Good(x) && NeverAsks(x)
    ensures (exists pieces {:trigger Delivers(x, pieces)} :: Delivers(x, pieces)) <==> Fits(x)
    ensures Delivers(x, Ones(|x.fs| - 1)) <==> Fits(x)
  {
    if Fits(x) {
      OnesDeliver(x, |x.fs| - 1);
      assert Delivers(x, Ones(|x.fs| - 1));
    }
    forall pieces: seq<nat> {:trigger Delivers(x, pieces)} | Delivers(x, pieces)
      ensures Fits(x)
    {
      DeliversFits(x, pieces);
    }
  }

  lemma DeliversFits(x: Flow, pieces: seq<nat>)
    requires Good(x) && Delivers(x, pieces)
    ensures Fits(x)
  {
    forall p {:trigger x.fs[p]} | 0 <= p < |x.fs| - 1 && !x.fs[p].failed ensures |x.fs[p].partial| < x.maxCapacity {
      if |x.fs[p].partial| >= x.maxCapacity {
        RunNotPast(x, pieces, p);
        StartsInOrder(x.k, x.stream, x.fs, Run(x, pieces).p, p);
      }
    }
  }

  // ---- one stream, two cuts ----

  /** The listener wants lines only. */
  ghost predicate LinesOnly(k: Rules) { forall ev {:trigger (k.decide)(ev)} :: (k.decide)(ev) == LineMode }

  lemma {:induction false} LinesStay(x: Flow, p: nat)
    requires Good(x) && LinesOnly(x.k) && Within(x, p)
    ensures x.fs[p].mode == LineMode && !Asks(x.k, x.fs[p])
    decreases p
  {
    if p > 0 {
      LinesStay(x, p - 1);
      assert Linked(x.k, x.stream, x.fs, p - 1);
    }
  }

  /** The capacity doubles with every full read, so twice the largest is enough of the stream to reach it. */
  lemma GrowFull(x: Flow, i: nat, b: nat) returns (j: nat, c: nat)
    requires Good(x) && LinesOnly(x.k) && Base(x, i, b) && Within(x, 2 * x.maxCapacity)
      && !x.fs[2 * x.maxCapacity].failed
    requires b <= Level(i, x.maxCapacity) || (Level(i, x.maxCapacity) == x.maxCapacity && b <= 2 * x.maxCapacity)
    ensures Level(j, x.maxCapacity) == x.maxCapacity && Base(x, j, c) && c <= 2 * x.maxCapacity
    decreases x.maxCapacity - Level(i, x.maxCapacity)
  {
    Capacities(x, i, i);
    var cap := Level(i, x.maxCapacity);
    if cap == x.maxCapacity { return i, b; }
    var q := b + cap;
    StartsInOrder(x.k, x.stream, x.fs, q, 2 * x.maxCapacity);
    LinesStay(x, b);
    var d := LineStart(x.fs, q);
    InLine(x.k, x.stream, x.fs, q, d);
    assert Outgrown(x, i, b, d);
    assert Base(x, i + 1, d);
    j, c := GrowFull(x, i + 1, d);
  }

  /** For lines, once the stream has gone on for twice the largest buffer: every line of half its size or more that a
      full buffer can end in is blocked by some cut. */
  lemma LongLineBlockable(x: Flow, p: nat)
    requires Good(x) && LinesOnly(x.k) && 3 * x.maxCapacity <= p && Within(x, p + 1) && !x.fs[p].failed
    requires Boundary(x, p - x.maxCapacity) && 2 * |x.fs[p].partial| >= x.maxCapacity
    ensures Blockable(x, p)
  {
    StartsInOrder(x.k, x.stream, x.fs, 2 * x.maxCapacity, p);
    var i, b := GrowFull(x, 0, 0);
    BaseLater(x, i, b, p - x.maxCapacity);
    LinesStay(x, p - x.maxCapacity);
    assert FullAt(x, i, p);
  }

  /** n times c. */
  function Times(c: int, n: nat): (r: seq<int>)
    ensures |r| == n && forall i {:trigger r[i]} :: 0 <= i < n ==> r[i] == c
  {
    seq(n, _ => c)
  }

  /** Empty lines, then a line that takes half the buffer. */
  function EmptyThenLong(k: Rules, maxCapacity: nat): (r: seq<int>)
    ensures |r| == 3 * maxCapacity + 1
  {
    var half := maxCapacity / 2;
    Times(k.sep, 2 * maxCapacity + half) + Times(k.sep + 1, maxCapacity - half) + [k.sep]
  }

  lemma {:induction false} EmptyThenLongMeans(x: Flow, j: nat)
    requires Good(x) && LinesOnly(x.k) && x.stream == EmptyThenLong(x.k, x.maxCapacity)
      && 2 * x.k.maxLine >= x.maxCapacity && j <= 3 * x.maxCapacity
    ensures var n := 2 * x.maxCapacity + x.maxCapacity / 2;
      && Within(x, j) && x.fs[j].mode == LineMode && !x.fs[j].failed
      && x.fs[j].partial == Times(x.k.sep + 1, if j <= n then 0 else j - n)
    decreases j
  {
    var n := 2 * x.maxCapacity + x.maxCapacity / 2;
    if j > 0 {
      EmptyThenLongMeans(x, j - 1);
      assert Linked(x.k, x.stream, x.fs, j - 1);
      assert x.stream[j - 1] == if j <= n then x.k.sep else x.k.sep + 1;
      if j > n { assert Times(x.k.sep + 1, j - n) == Times(x.k.sep + 1, j - 1 - n) + [x.k.sep + 1]; }
    }
  }

  /** The cut decides: one stream that some cut blocks, and that comes through to its end byte by byte. */
  lemma CutDecides(k: Rules, maxCapacity: nat)
    requires GoodRules(k) && LinesOnly(k) && INITIAL_CAPACITY <= maxCapacity && 2 * k.maxLine >= maxCapacity
    ensures var x := FlowOf(k, maxCapacity, EmptyThenLong(k, maxCapacity));
      && (exists pieces {:trigger Run(x, pieces)} :: Run(x, pieces).closed)
      && Delivers(x, Ones(3 * maxCapacity + 1)) && !x.fs[3 * maxCapacity + 1].failed
      && x.fs[3 * maxCapacity + 1].events ==
           x.fs[3 * maxCapacity].events + [Line(Times(k.sep + 1, maxCapacity - maxCapacity / 2))]
  {
    FlowGood(k, maxCapacity, EmptyThenLong(k, maxCapacity));
    var x := FlowOf(k, maxCapacity, EmptyThenLong(k, maxCapacity));
    EmptyThenLongCloses(x);
    EmptyThenLongFits(x);
    EmptyThenLongEnds(x);
  }

  lemma EmptyThenLongEnds(x: Flow)
    requires Good(x) && LinesOnly(x.k) && x.stream == EmptyThenLong(x.k, x.maxCapacity)
      && 2 * x.k.maxLine >= x.maxCapacity
    ensures Within(x, 3 * x.maxCapacity + 1) && !x.fs[3 * x.maxCapacity + 1].failed
    ensures x.fs[3 * x.maxCapacity + 1].events ==
      x.fs[3 * x.maxCapacity].events + [Line(Times(x.k.sep + 1, x.maxCapacity - x.maxCapacity / 2))]
  {
    EmptyThenLongMeans(x, 3 * x.maxCapacity);
    assert Linked(x.k, x.stream, x.fs, 3 * x.maxCapacity);
  }

  lemma EmptyThenLongCloses(x: Flow)
    requires Good(x) && LinesOnly(x.k) && x.stream == EmptyThenLong(x.k, x.maxCapacity)
      && 2 * x.k.maxLine >= x.maxCapacity
    ensures exists pieces {:trigger Run(x, pieces)} :: Run(x, pieces).closed
  {
    var p := 3 * x.maxCapacity;
    EmptyThenLongMeans(x, p);
    EmptyThenLongMeans(x, p - x.maxCapacity);
    LongLineBlockable(x, p);
    SomeCutCloses(x);
  }

  lemma EmptyThenLongFits(x: Flow)
    requires Good(x) && LinesOnly(x.k) && x.stream == EmptyThenLong(x.k, x.maxCapacity)
      && 2 * x.k.maxLine >= x.maxCapacity
    ensures Delivers(x, Ones(3 * x.maxCapacity + 1))
  {
    forall q {:trigger x.fs[q]} | 0 <= q < |x.fs| - 1 ensures !Asks(x.k, x.fs[q]) && |x.fs[q].partial| < x.maxCapacity {
      EmptyThenLongMeans(x, q);
      LinesStay(x, q);
    }
    SomeCutDelivers(x);
  }

  // ---- which configurations are safe ----

  lemma {:induction false} PartialBound(x: Flow, p: nat)
    requires Good(x) && Within(x, p)
    ensures |x.fs[p].partial| <= x.k.maxLine
    decreases p
  {
    if p > 0 {
      PartialBound(x, p - 1);
      assert Linked(x.k, x.stream, x.fs, p - 1);
    }
  }

  /** For lines: some stream can be cut so that a read is blocked exactly when the longest line allowed takes half the
      largest buffer. */
  lemma LimitsDecide(k: Rules, maxCapacity: nat)
    requires GoodRules(k) && LinesOnly(k) && INITIAL_CAPACITY <= maxCapacity
    ensures (exists stream, pieces {:trigger Run(FlowOf(k, maxCapacity, stream), pieces)} ::
      Run(FlowOf(k, maxCapacity, stream), pieces).closed)
      <==> 2 * k.maxLine >= maxCapacity
  {
    if 2 * k.maxLine >= maxCapacity {
      CutDecides(k, maxCapacity);
    } else {
      forall stream, pieces: seq<nat> {:trigger Run(FlowOf(k, maxCapacity, stream), pieces)}
        ensures !Run(FlowOf(k, maxCapacity, stream), pieces).closed
      {
        var x := FlowOf(k, maxCapacity, stream);
        FlowGood(k, maxCapacity, stream);
        forall p {:trigger x.fs[p]} | 0 <= p < |x.fs|
          ensures 2 * |x.fs[p].partial| < x.maxCapacity && !Asks(k, x.fs[p])
        {
          PartialBound(x, p);
          LinesStay(x, p);
        }
        ShortNeverClosed(x, pieces);
      }
    }
  }
}
