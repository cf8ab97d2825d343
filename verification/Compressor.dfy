/** The state behind BZ2_bzCompress: it gathers input into blocks, run-length coding it on the way, and hands out the
    bytes that were made of them. */
module Compressor {
  import opened Rle
  import opened Blocks
  import opened Crcs

  datatype Mode = Idle | Running | Flushing | Finishing
  datatype Action = Run | Flush | Finish | Unknown
  datatype Ret = RunOk | FlushOk | FinishOk | StreamEnd | ParamError | SequenceError

  ghost function Joined(raws: seq<seq<int>>): seq<int> {
    if raws == [] then [] else Joined(raws[..|raws| - 1]) + raws[|raws| - 1]
  }

  /** The input bytes in the run buffer. */
  ghost function RunBytes(ch: int, len: int): seq<int> {
    if ch < 256 then Repeat(ch, len) else []
  }

  ghost predicate RunBuffer(ch: int, len: int) {
    0 <= ch <= 256 && 0 <= len <= 255 && (ch < 256 <==> len >= 1)
  }

  /** A run of byte ch may be put behind the runs ps; without a run there are none before it. */
  ghost predicate MayFollow(ps: seq<Pair>, ch: int) {
    ps == [] || (ch < 256 && (ps[|ps| - 1].len >= 4 || ps[|ps| - 1].ch != ch))
  }

  /** The block holds the runs ps, and inUse the bytes of the block. */
  ghost predicate Holds(block: seq<int>, inUse: set<int>, ps: seq<Pair>) {
    Runs(ps) && block == Encoded(ps) && forall x {:trigger x in inUse} {:trigger x in block} :: x in inUse <==>
      x in block
  }

  /** data is a coded block that decodes to raw. */
  ghost predicate Codes(data: seq<int>, raw: seq<int>, most: int) {
    |data| <= most && exists ps :: Runs(ps) && data == Encoded(ps) && raw == Expanded(ps)
  }

  ghost predicate History(h: seq<Chunk>, raws: seq<seq<int>>, most: int) {
    && |h| == |raws|
    && (forall k {:trigger h[k]} :: 0 <= k < |h| ==> Codes(h[k].data, raws[k], most))
    && forall k {:trigger h[k]} :: 0 <= k < |h| - 1 ==> !h[k].last
  }

  ghost predicate Ended(h: seq<Chunk>) { h != [] && h[|h| - 1].last }

  lemma AddRun(ps: seq<Pair>, p: Pair)
    requires Runs(ps) && IsRun(p) && MayFollow(ps, p.ch)
    ensures Runs(ps + [p]) && Encoded(ps + [p]) == Encoded(ps) + EncPair(p)
    ensures Expanded(ps + [p]) == Expanded(ps) + Repeat(p.ch, p.len)
  {
    var qs := ps + [p];
    forall i {:trigger Apart(qs, i)} | 0 <= i < |qs| - 1 ensures Apart(qs, i) {
      if i < |ps| - 1 { assert Apart(ps, i); }
    }
    EncodedMore(ps, p);
  }

  lemma HistoryMore(h: seq<Chunk>, raws: seq<seq<int>>, most: int, c: Chunk, ps: seq<Pair>)
    requires History(h, raws, most) && !Ended(h) && Runs(ps) && c.data == Encoded(ps) && |c.data| <= most
    ensures History(h + [c], raws + [Expanded(ps)], most)
    ensures Joined(raws + [Expanded(ps)]) == Joined(raws) + Expanded(ps)
  {
    assert (raws + [Expanded(ps)])[..|raws|] == raws;
  }

  lemma {:induction false} FoldRepeat(k: Crc, c: int, ch: int, i: nat)
    ensures Fold(k, c, Repeat(ch, i + 1)) == (k.step)(Fold(k, c, Repeat(ch, i)), ch)
  {
    FoldAppend(k, c, Repeat(ch, i), [ch]);
    assert Repeat(ch, i + 1) == Repeat(ch, i) + [ch];
    assert Fold(k, Fold(k, c, Repeat(ch, i)), [ch]) == Fold(k, (k.step)(Fold(k, c, Repeat(ch, i)), ch), []);
  }

  lemma RunMore(ch: int, len: int, c: int)
    requires RunBuffer(ch, len) && 0 <= c < 256
    ensures RunBytes(c, 1) == [c] && (c == ch ==> RunBytes(ch, len) + [c] == RunBytes(ch, len + 1))
  {
  }

  lemma DropFirst(taken: seq<int>, s: seq<int>)
    requires s != [] && forall i {:trigger s[i]} :: 0 <= i < |s| ==> 0 <= s[i] < 256
    ensures (taken + [s[0]]) + s[1..] == taken + s
    ensures forall i {:trigger s[1..][i]} :: 0 <= i < |s[1..]| ==> 0 <= s[1..][i] < 256
  {
  }

  lemma PairBytes(p: Pair)
    requires IsRun(p)
    ensures EncPair(p) ==
      if p.len == 1 then [p.ch] else if p.len == 2 then [p.ch, p.ch]
      else if p.len == 3 then [p.ch, p.ch, p.ch]
                          else [p.ch, p.ch, p.ch, p.ch, p.len - 4]
  {
  }

  lemma HoldsMore(block: seq<int>, inUse: set<int>, ps: seq<Pair>, p: Pair, block': seq<int>, inUse': set<int>)
    requires Holds(block, inUse, ps) && IsRun(p) && Runs(ps + [p]) && Encoded(ps + [p]) == Encoded(ps) + EncPair(p)
    requires block' == block + EncPair(p) && inUse' == inUse + {p.ch} + if p.len < 4 then {} else {p.len - 4}
    ensures Holds(block', inUse', ps + [p])
  {
    PairBytes(p);
  }

  lemma Regroup(j: seq<int>, e: seq<int>, r: seq<int>, c: seq<int>)
    ensures j + e + r + c == j + (e + r) + c
  {
  }

  ghost predicate Open(u: int) { true }

  /** handle_compress is called: the action fits the mode, and the promised input is there. */
  predicate Goes(mode: Mode, promised: int, action: Action, n: nat) {
    || (mode == Running && action != Unknown)
    || (mode == Flushing && action == Flush && promised == n)
    || (mode == Finishing && action == Finish && promised == n)
  }

  /** What a call of BZ2_bzCompress with n bytes and so much space returns and leaves, in every mode: of the input, left
      bytes are not taken, and given bytes come out. It asks to be called again only when the space is filled. */
  ghost predicate Answers(mode: Mode, promised: int, action: Action, n: nat, space: nat, ret: Ret, after: Mode,
      owed: int, left: int, given: int) {
    && 0 <= left <= n && 0 <= given <= space
    && if Goes(mode, promised, action, n) then Concludes(action, n, space, ret, after, owed, left, given)
       else left == n && given == 0 && after == mode && owed == promised
            && ret == (if mode == Running then ParamError else SequenceError)
  }

  /** The same for a call that does call handle_compress. */
  ghost predicate Concludes(action: Action, n: int, space: int, ret: Ret, after: Mode, owed: int, left: int,
      given: int) {
    if action == Run then
      after == Running && (left == 0 || given == space) && ret == (if left < n || given > 0 then RunOk else ParamError)
    else if action == Flush then
      if ret == RunOk then after == Running && left == 0
        else ret == FlushOk && after == Flushing && given == space && owed == left
    else if left == n && given == 0 then
      ret == SequenceError && after == Finishing && owed == left
    else if ret == StreamEnd then after == Idle && left == 0
    else ret == FinishOk && after == Finishing && given == space && owed == left
  }

  /** The input that has been taken when rest is left of all. */
  ghost function Came(all: seq<int>, rest: seq<int>): seq<int> {
    if |rest| <= |all| then all[..|all| - |rest|] else []
  }

  lemma CameMore(all: seq<int>, rest: seq<int>)
    requires all == Came(all, rest) + rest && rest != [] && |rest| <= |all|
    ensures Came(all, rest[1..]) == Came(all, rest) + [rest[0]] && all == Came(all, rest[1..]) + rest[1..]
  {
    var n := |all| - |rest|;
    assert all[n] == rest[0];
    assert all[..n + 1] == all[..n] + [all[n]];
    assert all[n + 1..] == rest[1..];
  }

  /** What a caller can see of a turn. */
  datatype View = View(taken: seq<int>, nextIn: seq<int>, out: seq<int>, availOut: int, ch: int, mode: Mode)

  /** A turn takes some input and gives some output. One that does not stop has made a block: the flush or the last one,
      with all promised input in it and nothing left in the run buffer, or a full one, with more to come if input is
      promised. */
  ghost predicate WentNow(a: View, outputting: bool, b: View, progress: bool, stop: bool, flushed: bool, u: int) {
    && b.taken + b.nextIn == a.taken + a.nextIn && a.nextIn == Came(a.nextIn, b.nextIn) + b.nextIn
    && |b.nextIn| <= |a.nextIn| && a.out <= b.out && b.availOut + |b.out| == a.availOut + |a.out| && a.mode == b.mode
    && (progress <==> |b.nextIn| < |a.nextIn| || |b.out| > |a.out|)
    && (!stop && |b.nextIn| == |a.nextIn| && b.ch < 256 ==> a.ch < 256)
    && (!stop && outputting && |b.nextIn| == |a.nextIn| ==> a.ch < 256 && b.ch == 256)
    && (flushed ==> !stop && b.nextIn == [] && b.ch == 256 && b.mode != Running)
    && (!stop && !flushed ==> b.ch < 256 && (b.mode != Running ==> b.nextIn != []))
    && (stop && a.mode != Running ==> outputting && b.ch == a.ch && b.nextIn == a.nextIn)
  }

  /** Kept closed where it is only passed on. */
  ghost predicate Went(a: View, outputting: bool, b: View, progress: bool, stop: bool, flushed: bool) {
    forall u {:trigger Open(u)} :: Open(u) ==> WentNow(a, outputting, b, progress, stop, flushed, u)
  }

  lemma WentOpens(a: View, outputting: bool, b: View, progress: bool, stop: bool, flushed: bool)
    ensures Went(a, outputting, b, progress, stop, flushed) <==> WentNow(a, outputting, b, progress, stop, flushed, 0)
  {
    assert Open(0);
    if WentNow(a, outputting, b, progress, stop, flushed, 0) {
      forall u {:trigger Open(u)} | Open(u) ensures WentNow(a, outputting, b, progress, stop, flushed, u) {
        assert WentNow(a, outputting, b, progress, stop, flushed, 0);
      }
    }
  }

  /** What a caller can see of the output half. */
  ghost predicate GaveNow(a: View, outputting: bool, b: View, given: bool, small: bool, u: int) {
    && b.taken == a.taken && b.nextIn == a.nextIn && a.out <= b.out && b.mode == a.mode && b.ch == a.ch
    && b.availOut + |b.out| == a.availOut + |a.out| && (given <==> |b.out| > |a.out|)
    && (outputting ==> small && (b.mode != Running && b.nextIn == [] ==> b.ch < 256))
  }

  /** And of the input half; small says that the block was not full before. */
  ghost predicate TookNow(a: View, b: View, came: bool, small: bool, stop: bool, flushed: bool, u: int) {
    && b.taken + b.nextIn == a.taken + a.nextIn && a.nextIn == Came(a.nextIn, b.nextIn) + b.nextIn
    && |b.nextIn| <= |a.nextIn| && (came <==> |b.nextIn| < |a.nextIn|)
    && b.out == a.out && b.availOut == a.availOut && b.mode == a.mode
    && (!stop && |b.nextIn| == |a.nextIn| && b.ch < 256 ==> a.ch < 256)
    && (!stop && small && |b.nextIn| == |a.nextIn| ==> b.nextIn == [] && b.ch == 256 && b.mode != Running)
    && (flushed ==> !stop && b.nextIn == [] && b.ch == 256 && b.mode != Running)
    && (!stop && !flushed ==> b.ch < 256 && (b.mode != Running ==> b.nextIn != []))
    && (stop ==> b.mode == Running)
  }

  /** Kept closed where they are only passed on. */
  ghost predicate Gave(a: View, outputting: bool, b: View, given: bool, small: bool) {
    forall u {:trigger Open(u)} :: Open(u) ==> GaveNow(a, outputting, b, given, small, u)
  }

  ghost predicate Took(a: View, b: View, came: bool, small: bool, stop: bool, flushed: bool) {
    forall u {:trigger Open(u)} :: Open(u) ==> TookNow(a, b, came, small, stop, flushed, u)
  }

  lemma GaveIs(a: View, outputting: bool, b: View, given: bool, small: bool)
    requires GaveNow(a, outputting, b, given, small, 0)
    ensures Gave(a, outputting, b, given, small)
  {
    forall u {:trigger Open(u)} | Open(u) ensures GaveNow(a, outputting, b, given, small, u) {
      assert GaveNow(a, outputting, b, given, small, 0);
    }
  }

  /** The end of the input half, when no more is copied. */
  ghost predicate RestNow(a: View, b: View, small: bool, stop: bool, flushed: bool, u: int) {
    && b == a.(ch := b.ch) && (!stop && b.ch < 256 ==> a.ch < 256)
    && (!stop && small ==> b.nextIn == [] && b.ch == 256 && b.mode != Running)
    && (flushed ==> !stop && b.nextIn == [] && b.ch == 256 && b.mode != Running)
    && (!stop && !flushed ==> b.ch < 256 && (b.mode != Running ==> b.nextIn != []))
    && (stop ==> b.mode == Running)
  }

  ghost predicate Rested(a: View, b: View, small: bool, stop: bool, flushed: bool) {
    forall u {:trigger Open(u)} :: Open(u) ==> RestNow(a, b, small, stop, flushed, u)
  }

  lemma RestIs(a: View, b: View, small: bool, stop: bool, flushed: bool)
    requires RestNow(a, b, small, stop, flushed, 0)
    ensures Rested(a, b, small, stop, flushed)
  {
    forall u {:trigger Open(u)} | Open(u) ensures RestNow(a, b, small, stop, flushed, u) {
      assert RestNow(a, b, small, stop, flushed, 0);
    }
  }

  lemma TookIs(a: View, mid: View, b: View, came: bool, small: bool, small': bool, stop: bool, flushed: bool)
    requires mid.taken + mid.nextIn == a.taken + a.nextIn && a.nextIn == Came(a.nextIn, mid.nextIn) + mid.nextIn
    requires |mid.nextIn| <= |a.nextIn| && (came <==> |mid.nextIn| < |a.nextIn|)
    requires mid.out == a.out && mid.availOut == a.availOut && mid.mode == a.mode
    requires if came then mid.ch < 256 else mid.ch == a.ch && small' == small
    requires Rested(mid, b, small', stop, flushed)
    ensures Took(a, b, came, small, stop, flushed)
  {
    assert Open(0);
    assert RestNow(mid, b, small', stop, flushed, 0);
    forall u {:trigger Open(u)} | Open(u) ensures TookNow(a, b, came, small, stop, flushed, u) {
      assert TookNow(a, b, came, small, stop, flushed, 0);
    }
  }

  lemma Halves(a: View, outputting: bool, mid: View, b: View, given: bool, came: bool, small: bool, stop: bool,
      flushed: bool)
    requires Gave(a, outputting, mid, given, small) && Took(mid, b, came, small, stop, flushed)
    ensures Went(a, outputting, b, given || came, stop, flushed)
  {
    assert Open(0);
    assert GaveNow(a, outputting, mid, given, small, 0) && TookNow(mid, b, came, small, stop, flushed, 0);
    WentOpens(a, outputting, b, given || came, stop, flushed);
  }

  /** The output half alone, when it stops. */
  lemma StoppedThere(a: View, b: View, given: bool)
    requires b.taken == a.taken && b.nextIn == a.nextIn && a.out <= b.out && b.mode == a.mode && b.ch == a.ch
    requires b.availOut + |b.out| == a.availOut + |a.out| && (given <==> |b.out| > |a.out|)
    ensures Went(a, true, b, given, true, false)
  {
    assert Came(a.nextIn, b.nextIn) == [];
    WentOpens(a, true, b, given, true, false);
  }

  class EState {
    const k: Crc
    const size: int
    const nblockMAX: int
    var mode: Mode
    var outputting: bool  // state == BZ_S_OUTPUT
    var ch: int
    var len: int
    var block: seq<int>
    var inUse: set<int>
    var blockCRC: int
    var availInExpect: int
    var zbits: seq<int>
    var pos: int
    var history: seq<Chunk>
    // the stream
    var nextIn: seq<int>
    var availOut: int
    var out: seq<int>
    // all input taken, the part of it in each finished block, and the runs in this one
    ghost var taken: seq<int>
    ghost var raws: seq<seq<int>>
    ghost var runs: seq<Pair>
    // all bytes made
    ghost var made: seq<int>

    ghost function Seen(): View
      reads this`taken, this`nextIn, this`out, this`availOut, this`ch, this`mode
    {
      View(taken, nextIn, out, availOut, ch, mode)
    }

    /** The blocks and what is being gathered. */
    ghost function Now(): Work
      reads this`history, this`runs, this`ch, this`len
    {
      Work(history, runs, ch, len)
    }

    /** Every byte taken in is in exactly one place, in order. */
    ghost predicate AccountsFor(u: int)
      reads this`ch, this`len, this`runs, this`history, this`raws, this`taken, this`block, this`inUse, this`outputting,
            this`blockCRC
    {
      && nblockMAX > 0 && RunBuffer(ch, len) && Runs(runs) && History(history, raws, nblockMAX + 9)
      && taken == Joined(raws) + Expanded(runs) + RunBytes(ch, len)
      && (!outputting ==> Holds(block, inUse, runs) && |block| <= nblockMAX + 4 && MayFollow(runs, ch))
      && (!outputting ==> blockCRC == Fold(k, k.init, Expanded(runs)))
      && (outputting ==> runs == [] && history != [])
    }

    /** AccountsFor, kept closed where it is only passed on. */
    ghost predicate Accounts()
      reads this`ch, this`len, this`runs, this`history, this`raws, this`taken, this`block, this`inUse, this`outputting,
            this`blockCRC
    {
      forall u {:trigger Open(u)} :: Open(u) ==> AccountsFor(u)
    }

    lemma AccountsOpen()
      ensures Accounts() <==> AccountsFor(0)
    {
      assert Open(0);
    }

    /** Every byte made is delivered or waiting. */
    ghost predicate DeliversAll(u: int)
      reads this`pos, this`zbits, this`availOut, this`out, this`made, this`outputting
    {
      && 0 <= pos <= |zbits| && availOut >= 0 && out + zbits[pos..] == made
      && (!outputting ==> zbits == [])
    }

    ghost predicate Delivers()
      reads this`pos, this`zbits, this`availOut, this`out, this`made, this`outputting
    {
      forall u {:trigger Open(u)} :: Open(u) ==> DeliversAll(u)
    }

    lemma DeliversOpen()
      ensures Delivers() <==> DeliversAll(0)
    {
      assert Open(0);
    }

    /** A block that is not the last one leaves something in the run buffer, unless it was flushed out;
        the last one is compressed when nothing is left to take in. */
    ghost predicate Orderly()
      reads this`outputting, this`history, this`mode, this`ch, this`availInExpect, this`pos, this`zbits
    {
      && (outputting && !Ended(history) && mode != Flushing ==> ch < 256)
      && (Ended(history) ==> outputting && (mode == Finishing || mode == Idle) && availInExpect == 0 && ch == 256)
      && (mode == Idle ==> Ended(history) && pos == |zbits|)
    }

    ghost predicate Valid()
      reads this
    {
      Accounts() && Delivers() && Orderly() && InputBytes() && RunBuffer(ch, len) && nblockMAX > 0 && availOut >= 0
    }

    ghost predicate InputBytes()
      reads this`nextIn
    {
      forall i {:trigger nextIn[i]} :: 0 <= i < |nextIn| ==> 0 <= nextIn[i] < 256
    }

    /** BZ2_bzCompressInit. */
    constructor (blockSize100k: int, k: Crc)
      requires 1 <= blockSize100k <= 9
      ensures Valid() && mode == Running && taken == [] && out == [] && size == blockSize100k
        && nblockMAX == 100000 * blockSize100k - 19
      ensures history == [] && raws == [] && made == [] && this.k == k && nextIn == [] && availInExpect == 0
        && Now() == Bare([])
    {
      this.k := k;
      size := blockSize100k;
      nblockMAX := 100000 * blockSize100k - 19;
      blockCRC, made := k.init, [];
      mode, outputting, ch, len, block, inUse := Running, false, 256, 0, [], {};
      availInExpect, zbits, pos, history, nextIn, availOut, out := 0, [], 0, [], [], 0, [];
      taken, raws, runs := [], [], [];
      new;
      AccountsOpen();
      DeliversOpen();
    }

    /** isempty_RL. */
    predicate RunEmpty()
      reads this
    {
      !(ch < 256 && len > 0)
    }

    /** BZ_UPDATE_CRC for every byte of the run. */
    method UpdateCrc()
      requires RunBuffer(ch, len) && ch < 256 && blockCRC == Fold(k, k.init, Expanded(runs))
      modifies this`blockCRC
      ensures blockCRC == Fold(k, k.init, Expanded(runs) + Repeat(ch, len))
    {
      ghost var c := blockCRC;
      for i := 0 to len
        invariant blockCRC == Fold(k, c, Repeat(ch, i))
      {
        FoldRepeat(k, c, ch, i);
        blockCRC := (k.step)(blockCRC, ch);
      }
      FoldAppend(k, k.init, Expanded(runs), Repeat(ch, len));
    }

    /** add_pair_to_block. */
    method AddPair()
      requires AccountsFor(0) && !outputting && ch < 256
      modifies this`block, this`inUse, this`runs, this`blockCRC
      ensures blockCRC == Fold(k, k.init, Expanded(runs))
      ensures runs == old(runs) + [Pair(ch, len)] && Runs(runs) && Holds(block, inUse, runs)
        && |block| <= old(|block|) + 5
      ensures Expanded(runs) == old(Expanded(runs)) + Repeat(ch, len)
    {
      ghost var p := Pair(ch, len);
      UpdateCrc();
      AddRun(runs, p);
      PutPair(p);
      HoldsMore(old(block), old(inUse), runs, p, block, inUse);
      runs := runs + [p];
    }

    /** The bytes of the run go into the block. */
    method PutPair(ghost p: Pair)
      requires IsRun(p) && p == Pair(ch, len)
      modifies this`block, this`inUse
      ensures block == old(block) + EncPair(p) && inUse == old(inUse) + {p.ch} + if p.len < 4 then {} else {p.len - 4}
    {
      PairBytes(p);
      inUse := inUse + {ch};
      if len == 1 {
        block := block + [ch];
      } else if len == 2 {
        block := block + [ch, ch];
      } else if len == 3 {
        block := block + [ch, ch, ch];
      } else {
        inUse := inUse + {len - 4};
        block := block + [ch, ch, ch, ch, len - 4];
      }
    }

    /** The common case of ADD_CHAR_TO_BLOCK: a run of one ends. */
    method AddSingle()
      requires AccountsFor(0) && !outputting && len == 1
      modifies this`block, this`inUse, this`runs, this`blockCRC
      ensures blockCRC == Fold(k, k.init, Expanded(runs))
      ensures runs == old(runs) + [Pair(ch, len)] && Runs(runs) && Holds(block, inUse, runs)
        && |block| <= old(|block|) + 5
      ensures Expanded(runs) == old(Expanded(runs)) + Repeat(ch, len)
    {
      ghost var p := Pair(ch, len);
      UpdateCrc();
      AddRun(runs, p);
      PairBytes(p);
      inUse := inUse + {ch};
      block := block + [ch];
      HoldsMore(old(block), old(inUse), runs, p, block, inUse);
      runs := runs + [p];
    }

    /** Another byte of the same run. */
    method Extend(c: int)
      requires Accounts() && !outputting && c == ch < 256 && len < 255
      modifies this`len, this`taken
      ensures Now() == AddByte(old(Now()), c)
      ensures Accounts() && taken == old(taken) + [c] && RunBuffer(ch, len)
    {
      AccountsOpen();
      RunMore(ch, len, c);
      len := len + 1;
      taken := taken + [c];
      AccountsOpen();
    }

    /** The run ends and another begins. */
    method Switch(c: int)
      requires Accounts() && !outputting && 0 <= c < 256 && (c != ch || len == 255) && |block| < nblockMAX
      modifies this`block, this`inUse, this`runs, this`blockCRC, this`ch, this`len, this`taken
      ensures Accounts() && taken == old(taken) + [c] && ch < 256 && RunBuffer(ch, len)
      ensures Now() == AddByte(old(Now()), c)
    {
      AccountsOpen();
      ghost var was, j, e := Pair(ch, len), Joined(raws), Expanded(runs);
      RunMore(ch, len, c);
      if c != ch && len == 1 {
        AddSingle();
        ch := c;
      } else {
        if ch < 256 { AddPair(); }
        ch, len := c, 1;
      }
      taken := taken + [c];
      Regroup(j, e, RunBytes(was.ch, was.len), [c]);
      assert was.ch < 256 ==> runs[|runs| - 1] == was;
      AccountsOpen();
    }

    /** ADD_CHAR_TO_BLOCK. */
    method AddChar(c: int)
      requires Accounts() && !outputting && 0 <= c < 256 && |block| < nblockMAX && RunBuffer(ch, len)
      modifies this`block, this`inUse, this`runs, this`blockCRC, this`ch, this`len, this`taken
      ensures Accounts() && taken == old(taken) + [c] && ch < 256 && RunBuffer(ch, len)
      ensures Now() == AddByte(old(Now()), c)
    {
      if c != ch || len == 255 {
        Switch(c);
      } else {
        Extend(c);
      }
    }

    /** flush_RL. */
    method FlushRun()
      requires Accounts() && !outputting
      modifies this`block, this`inUse, this`runs, this`blockCRC, this`ch, this`len
      ensures Runs(runs) && Holds(block, inUse, runs) && |block| <= nblockMAX + 9
      ensures taken == Joined(raws) + Expanded(runs) && ch == 256 && len == 0
        && blockCRC == Fold(k, k.init, Expanded(runs))
      ensures Now() == old(Now()).(runs := old(runs + Held(Now())), ch := 256, len := 0)
    {
      AccountsOpen();
      if ch < 256 { AddPair(); }
      ch, len := 256, 0;
    }

    /** What a call works on: the promised input is what the caller offers. */
    ghost predicate Working()
      reads this
    {
      Valid() && mode != Idle && Promised()
    }

    ghost predicate Promised()
      reads this`mode, this`availInExpect, this`nextIn
    {
      mode != Running ==> availInExpect == |nextIn|
    }

    /** Takes one byte of input. */
    method TakeByte()
      requires Accounts() && !outputting && InputBytes() && Promised() && RunBuffer(ch, len) && nextIn != []
        && |block| < nblockMAX
      modifies this`block, this`inUse, this`runs, this`blockCRC, this`ch, this`len, this`taken, this`nextIn,
               this`availInExpect
      ensures Accounts() && InputBytes() && Promised() && RunBuffer(ch, len) && taken + nextIn == old(taken + nextIn)
      ensures |nextIn| == old(|nextIn|) - 1 && ch < 256
      ensures nextIn == old(nextIn)[1..] && Now() == AddByte(old(Now()), old(nextIn)[0])
    {
      ghost var was, all := taken, nextIn;
      AddChar(nextIn[0]);
      DropFirst(was, all);
      nextIn := nextIn[1..];
      if mode != Running { availInExpect := availInExpect - 1; }
    }

    /** The block is full when its runs say so. */
    lemma BlockFull()
      requires Accounts() && !outputting
      ensures |block| >= nblockMAX <==> Full(Now(), nblockMAX)
    {
      AccountsOpen();
    }

    /** copy_input_until_stop. */
    method CopyInput() returns (progress: bool)
      requires Accounts() && !outputting && InputBytes() && Promised() && RunBuffer(ch, len)
      modifies this`block, this`inUse, this`runs, this`blockCRC, this`ch, this`len, this`taken, this`nextIn,
               this`availInExpect
      ensures Accounts() && InputBytes() && Promised() && RunBuffer(ch, len) && taken + nextIn == old(taken + nextIn)
      ensures |nextIn| <= old(|nextIn|) && (progress <==> |nextIn| < old(|nextIn|))
      ensures if progress then ch < 256 else ch == old(ch) && block == old(block)
      ensures |block| >= nblockMAX || nextIn == []
      ensures old(nextIn) == Came(old(nextIn), nextIn) + nextIn
        && Adds(old(Now()), Came(old(nextIn), nextIn), Now(), nblockMAX)
    {
      progress := false;
      while true
        invariant old(nextIn) == Came(old(nextIn), nextIn) + nextIn
          && Adds(old(Now()), Came(old(nextIn), nextIn), Now(), nblockMAX)
        invariant Accounts() && InputBytes() && Promised() && RunBuffer(ch, len)
          && taken + nextIn == old(taken + nextIn)
        invariant |nextIn| <= old(|nextIn|) && (progress <==> |nextIn| < old(|nextIn|))
        invariant if progress then ch < 256 else ch == old(ch) && block == old(block)
        decreases |nextIn|
      {
        if |block| >= nblockMAX { break; }
        if nextIn == [] { break; }
        if mode != Running && availInExpect == 0 { break; }
        progress := true;
        ghost var before, came := Now(), Came(old(nextIn), nextIn);
        BlockFull();
        AddsOne(old(Now()), came, before, nextIn[0], nblockMAX);
        CameMore(old(nextIn), nextIn);
        TakeByte();
      }
    }

    /** copy_output_until_stop. */
    method CopyOutput() returns (progress: bool)
      requires Delivers()
      modifies this`pos, this`out, this`availOut
      ensures Delivers() && (progress <==> pos > old(pos)) && old(pos) <= pos <= |zbits| && availOut >= 0
      ensures progress <==> |out| > old(|out|)
      ensures availOut == 0 || pos == |zbits|
      ensures availOut + |out| == old(availOut + |out|) && old(out) <= out
    {
      DeliversOpen();
      progress := false;
      while true
        invariant DeliversAll(0) && (progress <==> pos > old(pos)) && pos >= old(pos)
          && (progress <==> |out| > old(|out|))
        invariant availOut + |out| == old(availOut + |out|) && old(out) <= out
        decreases |zbits| - pos
      {
        if availOut == 0 { break; }
        if pos >= |zbits| { break; }
        progress := true;
        assert zbits[pos..] == [zbits[pos]] + zbits[pos + 1..];
        out := out + [zbits[pos]];
        pos := pos + 1;
        availOut := availOut - 1;
      }
      DeliversOpen();
    }

    /** prepare_new_block, and back to taking input. */
    method NewBlock()
      requires Accounts() && Delivers() && outputting && pos == |zbits|
      modifies this`block, this`inUse, this`blockCRC, this`zbits, this`pos, this`outputting
      ensures Accounts() && Delivers() && !outputting && block == [] && zbits == [] && pos == 0
    {
      AccountsOpen();
      DeliversOpen();
      block, inUse, blockCRC, zbits, pos := [], {}, k.init, [], 0;
      outputting := false;
      AccountsOpen();
      DeliversOpen();
    }

    /** A block is ready to be compressed; last says whether the trailer follows it. */
    ghost predicate ReadyNow(last: bool, u: int)
      reads this
    {
      && nblockMAX > 0 && !outputting && RunBuffer(ch, len) && Holds(block, inUse, runs) && |block| <= nblockMAX + 9
      && History(history, raws, nblockMAX + 9) && !Ended(history) && DeliversAll(u)
      && blockCRC == Fold(k, k.init, Expanded(runs))
      && taken == Joined(raws) + Expanded(runs) + RunBytes(ch, len)
      && InputBytes() && Promised() && mode != Idle
      && (if last then mode == Finishing && availInExpect == 0 && ch == 256 else mode == Flushing || ch < 256)
      && (last || |block| >= nblockMAX || (mode == Flushing && availInExpect == 0 && ch == 256))
    }

    ghost predicate Ready(last: bool)
      reads this
    {
      forall u {:trigger Open(u)} :: Open(u) ==> ReadyNow(last, u)
    }

    lemma ReadyOpen(last: bool)
      ensures Ready(last) <==> ReadyNow(last, 0)
    {
      assert Open(0);
      if ReadyNow(last, 0) {
        forall u {:trigger Open(u)} | Open(u) ensures ReadyNow(last, u) {
          assert DeliversAll(0);
        }
      }
    }

    /** What BZ2_compressBlock is given. */
    lemma ReadyBlock(last: bool)
      requires Ready(last)
      ensures Runs(runs) && block == Encoded(runs) && |block| <= nblockMAX + 9 && !Ended(history)
        && blockCRC == Fold(k, k.init, Expanded(runs))
    {
      ReadyOpen(last);
    }

    /** BZ2_compressBlock has made these bytes of it: on to output. */
    method Supply(last: bool, bytes: seq<int>)
      requires Ready(last)
      modifies this`history, this`raws, this`runs, this`zbits, this`pos, this`outputting, this`made
      ensures Working() && outputting && history == old(history) + [Chunk(block, last)] && made == old(made) + bytes
      ensures raws == old(raws) + [old(Expanded(runs))]
      ensures Now() == old(Now()).(chunks := old(history) + [Chunk(old(Encoded(runs)), last)], runs := [])
    {
      ReadyBlock(last);
      StoreBlock(last);
      PutBytes(bytes);
    }

    /** The block is finished. */
    method StoreBlock(last: bool)
      requires Ready(last)
      modifies this`history, this`raws, this`runs, this`outputting
      ensures Accounts() && history == old(history) + [Chunk(block, last)] && raws == old(raws) + [old(Expanded(runs))]
      ensures outputting && zbits == [] && pos == 0 && availOut >= 0 && out == made && nblockMAX > 0
        && RunBuffer(ch, len)
      ensures InputBytes() && Promised() && mode != Idle
      ensures if last then mode == Finishing && availInExpect == 0 && ch == 256 else mode == Flushing || ch < 256
      ensures Ended(history) == last && runs == []
    {
      ReadyOpen(last);
      HistoryMore(history, raws, nblockMAX + 9, Chunk(block, last), runs);
      assert zbits[pos..] == [] && out + [] == out;
      raws := raws + [Expanded(runs)];
      history := history + [Chunk(block, last)];
      runs := [];
      outputting := true;
      AccountsOpen();
    }

    method PutBytes(bytes: seq<int>)
      requires outputting && out == made && availOut >= 0
      modifies this`zbits, this`pos, this`made
      ensures Delivers() && zbits == bytes && pos == 0 && made == old(made) + bytes
    {
      assert bytes[0..] == bytes;
      made := made + bytes;
      zbits, pos := bytes, 0;
      DeliversOpen();
    }

    /** flush_RL, when all promised input is in. */
    method FlushBlock(last: bool)
      requires Working() && !outputting && !Ended(history) && availInExpect == 0
        && mode == (if last then Finishing else Flushing)
      modifies this`block, this`inUse, this`runs, this`blockCRC, this`ch, this`len
      ensures Ready(last) && ch == 256 && len == 0
      ensures Now() == old(Now()).(runs := old(runs + Held(Now())), ch := 256, len := 0)
    {
      AccountsOpen();
      DeliversOpen();
      FlushRun();
      ReadyOpen(last);
    }

    /** A full block always leaves a run in the buffer. */
    lemma FullBlock()
      requires Working() && !outputting && !Ended(history) && |block| >= nblockMAX
      ensures Ready(false) && ch < 256
    {
      AccountsOpen();
      DeliversOpen();
      assert runs != [];
      ReadyOpen(false);
    }

    /** What the input half does to the blocks with the bytes it takes. */
    ghost predicate Worked(w: Work, came: seq<int>, v: Work, stop: bool, flushed: bool) {
      WorkedOn(w, came, v, stop, flushed, nblockMAX)
    }

    lemma NoneGathered()
      requires Accounts() && outputting
      ensures Worked(Now(), [], Now(), true, false)
    {
      AccountsOpen();
      WorkedOpens(Now(), [], Now(), true, false, nblockMAX);
    }

    /** The input half of the loop of handle_compress, up to the call of BZ2_compressBlock. */
    method TakeInput() returns (progress: bool, stop: bool, last: bool, ghost flushed: bool)
      requires Working() && !outputting
      modifies this`block, this`inUse, this`runs, this`blockCRC, this`ch, this`len, this`taken, this`nextIn,
               this`availInExpect
      ensures Took(old(Seen()), Seen(), progress, old(|block|) < nblockMAX, stop, flushed)
      ensures if stop then Working() && mode == Running && nextIn == [] && pos == |zbits| else Ready(last)
      ensures Worked(old(Now()), Came(old(nextIn), nextIn), Now(), stop, flushed)
        && (last <==> flushed && mode == Finishing)
    {
      ghost var w, all := Now(), nextIn;
      progress := CopyInput();
      ghost var mid, small := Seen(), |block| < nblockMAX;
      stop, last, flushed := EndInput(w, Came(all, nextIn));
      TookIs(old(Seen()), mid, Seen(), progress, old(|block|) < nblockMAX, small, stop, flushed);
    }

    /** What to do when no more input can be copied. */
    method EndInput(ghost w: Work, ghost came: seq<int>) returns (stop: bool, last: bool, ghost flushed: bool)
      requires Working() && !outputting && (|block| >= nblockMAX || nextIn == []) && Adds(w, came, Now(), nblockMAX)
      modifies this`block, this`inUse, this`runs, this`blockCRC, this`ch, this`len
      ensures Rested(old(Seen()), Seen(), old(|block|) < nblockMAX, stop, flushed)
      ensures if stop then Working() && mode == Running && nextIn == [] && pos == |zbits| else Ready(last)
      ensures Worked(w, came, Now(), stop, flushed) && (last <==> flushed && mode == Finishing)
    {
      stop, last, flushed := false, false, false;
      BlockFull();
      if mode != Running && availInExpect == 0 {
        last, flushed := mode == Finishing, true;
        FlushBlock(last);
      } else if |block| >= nblockMAX {
        FullBlock();
      } else {
        DeliversOpen();
        stop := true;
      }
      WorkedOpens(w, came, Now(), stop, flushed, nblockMAX);
      RestIs(old(Seen()), Seen(), old(|block|) < nblockMAX, stop, flushed);
    }

    /** The output half. */
    method GiveOutput() returns (progress: bool, stop: bool)
      requires Working() && outputting
      modifies this`block, this`inUse, this`blockCRC, this`zbits, this`pos, this`outputting, this`out, this`availOut
      ensures Working() && old(out) <= out && availOut + |out| == old(availOut + |out|)
        && (progress <==> |out| > old(|out|))
      ensures !stop ==> !outputting && block == [] && (mode != Running && nextIn == [] ==> ch < 256)
      ensures stop ==> pos <= |zbits| && (pos < |zbits| ==> availOut == 0)
      ensures stop && pos == |zbits| ==>
        nextIn == [] && ch == 256 && mode != Running && (mode == Finishing ==> outputting && Ended(history))
          && (mode == Flushing ==> !outputting && block == [])
    {
      stop := true;
      progress := CopyOutput();
      if pos < |zbits| { return; }
      if mode == Finishing && availInExpect == 0 && RunEmpty() { return; }
      NewBlock();
      if mode == Flushing && availInExpect == 0 && RunEmpty() { return; }
      stop := false;
    }

    /** Everything taken in is in finished blocks, and everything made of them has been given out. */
    ghost predicate SettledAll(u: int)
      reads this`history, this`raws, this`taken, this`out, this`made
    {
      History(history, raws, nblockMAX + 9) && taken == Joined(raws) && out == made
    }

    ghost predicate Settled()
      reads this`history, this`raws, this`taken, this`out, this`made
    {
      forall u {:trigger Open(u)} :: Open(u) ==> SettledAll(u)
    }

    lemma SettledOpen()
      ensures Settled() <==> SettledAll(0)
    {
      assert Open(0);
    }

    lemma AllOut()
      requires Accounts() && Delivers() && ch == 256 && pos == |zbits| && (outputting || block == [])
      ensures Settled()
    {
      AccountsOpen();
      DeliversOpen();
      assert zbits[pos..] == [];
      assert runs == [];
      SettledOpen();
    }

    /** The caller sets next_in, avail_in and avail_out. */
    method Offer(input: seq<int>, space: nat)
      requires Valid() && forall i {:trigger input[i]} :: 0 <= i < |input| ==> 0 <= input[i] < 256
      modifies this`nextIn, this`availOut
      ensures Valid() && nextIn == input && availOut == space
    {
      DeliversOpen();
      nextIn, availOut := input, space;
      DeliversOpen();
    }

    /** FLUSH or FINISH begins: the input on offer now is what will be taken. */
    method Promise(action: Action)
      requires Valid() && mode == Running && (action == Flush || action == Finish)
      modifies this`availInExpect, this`mode
      ensures Working() && mode == if action == Flush then Flushing else Finishing
    {
      availInExpect := |nextIn|;
      mode := if action == Flush then Flushing else Finishing;
    }

    /** BZ2_bzCompress up to the call of handle_compress: input and space are what the caller has put in the stream. */
    method Begin(action: Action, input: seq<int>, space: nat) returns (go: bool, ret: Ret)
      requires Valid() && forall i {:trigger input[i]} :: 0 <= i < |input| ==> 0 <= input[i] < 256
      modifies this`nextIn, this`availOut, this`availInExpect, this`mode
      ensures nextIn == input && availOut == space && (go ==> Working()) && (!go ==> Valid() && mode == old(mode))
      ensures (go <==> Goes(old(mode), old(availInExpect), action, |input|))
      ensures !go ==>
        ret == (if old(mode) == Running then ParamError else SequenceError) && availInExpect == old(availInExpect)
      ensures go ==> mode == (if action == Run then Running else if action == Flush then Flushing else Finishing)
    {
      Offer(input, space);
      go, ret := false, SequenceError;
      if mode == Idle { return; }
      if mode == Running {
        if action == Run { return true, ret; }
        if action == Unknown { return false, ParamError; }
        Promise(action);
      }
      if action != (if mode == Flushing then Flush else Finish) || availInExpect != |nextIn| { return; }
      go := true;
    }

    /** What handle_compress has got done when it stops. */
    ghost predicate Handled()
      reads this
    {
      && Working() && pos <= |zbits| && (pos < |zbits| ==> availOut == 0)
      && (mode == Running ==> nextIn == [] || availOut == 0)
      && (mode != Running && pos == |zbits| ==>
        nextIn == [] && ch == 256 && (mode == Finishing ==> outputting && Ended(history))
          && (mode == Flushing ==> !outputting && block == []))
    }

    /** One turn of the loop of handle_compress, up to the call of BZ2_compressBlock. */
    method Turn() returns (progress: bool, stop: bool, last: bool, ghost flushed: bool)
      requires Working()
      modifies this`block, this`inUse, this`runs, this`blockCRC, this`ch, this`len, this`taken, this`nextIn,
               this`availInExpect,
               this`zbits, this`pos, this`outputting, this`out, this`availOut
      ensures if stop then Handled() else Ready(last)
      ensures Went(old(Seen()), old(outputting), Seen(), progress, stop, flushed)
      ensures Worked(old(Now()), Came(old(nextIn), nextIn), Now(), stop, flushed)
        && (last <==> flushed && mode == Finishing)
    {
      last, flushed := false, false;
      ghost var before, was := Seen(), outputting;
      ghost var small;
      progress, stop, small := OutputHalf();
      if stop { return; }
      ghost var mid, given := Seen(), progress;
      var p;
      p, stop, last, flushed := TakeInput();
      progress := progress || p;
      Halves(before, was, mid, Seen(), given, p, small, stop, flushed);
    }

    /** The output half of it, when there is output. */
    method OutputHalf() returns (progress: bool, stop: bool, ghost small: bool)
      requires Working()
      modifies this`block, this`inUse, this`blockCRC, this`zbits, this`pos, this`outputting, this`out, this`availOut
      ensures if stop then Handled() else Working() && !outputting && small == (|block| < nblockMAX)
      ensures stop ==> Went(old(Seen()), old(outputting), Seen(), progress, true, false)
      ensures stop ==> Worked(Now(), [], Now(), true, false)
      ensures !stop ==> Gave(old(Seen()), old(outputting), Seen(), progress, small)
    {
      progress, stop := false, false;
      if outputting {
        NoneGathered();
        progress, stop := GiveOutput();
      }
      small := |block| < nblockMAX;
      if stop { StoppedThere(old(Seen()), Seen(), progress); }
      else { GaveIs(old(Seen()), old(outputting), Seen(), progress, small); }
    }

    /** And after it. */
    method Conclude(progress: bool) returns (ret: Ret)
      requires Handled()
      modifies this`mode
      ensures Valid() && (mode != Running && mode != Idle ==> availInExpect == |nextIn|)
      ensures old(mode) == Running ==> mode == Running && ret == if progress then RunOk else ParamError
      ensures old(mode) == Flushing ==>
        if ret == RunOk then mode == Running && nextIn == [] else ret == FlushOk && mode == Flushing && availOut == 0
      ensures old(mode) == Finishing && !progress ==> ret == SequenceError && mode == Finishing
      ensures old(mode) == Finishing && progress ==>
        if ret == StreamEnd then mode == Idle && nextIn == [] else ret == FinishOk && mode == Finishing && availOut == 0
      ensures ret == StreamEnd ==> Ended(history) && Settled()
      ensures ret == RunOk && old(mode) != Running ==> Settled()
      ensures old(mode) != Running && (ret == RunOk || ret == StreamEnd) ==> ch == 256
      ensures mode == Flushing || mode == Finishing ==> outputting
    {
      if mode == Running { return if progress then RunOk else ParamError; }
      DeliversOpen();
      if mode == Finishing && !progress { return SequenceError; }
      if availInExpect > 0 || !RunEmpty() || pos < |zbits| { return if mode == Flushing then FlushOk else FinishOk; }
      AllOut();
      ret := if mode == Flushing then RunOk else StreamEnd;
      mode := if mode == Flushing then Running else Idle;
    }
  }

  ghost function UnRleAll(h: seq<Chunk>, g: int, g2: int): seq<int> {
    if h == [] then [] else UnRleAll(h[..|h| - 1], g, g2) + UnRle(h[|h| - 1].data, g, g2)
  }

  /** Undoing the run-length coding of the blocks, one by one, gives back everything taken in. */
  lemma {:induction false} BlocksDecode(h: seq<Chunk>, raws: seq<seq<int>>, most: int, g: int, g2: int)
    requires History(h, raws, most) && 0 <= g < 256 && 0 <= g2 < 256
    ensures UnRleAll(h, g, g2) == Joined(raws)
    decreases |h|
  {
    if h != [] {
      var m := |h| - 1;
      assert History(h[..m], raws[..m], most);
      BlocksDecode(h[..m], raws[..m], most, g, g2);
      assert Codes(h[m].data, raws[m], most);
      var ps :| Runs(ps) && h[m].data == Encoded(ps) && raws[m] == Expanded(ps);
      UnRleInvertsRle(ps, g, g2);
    }
  }

  lemma TakenPrefix(data: seq<int>, p: nat, n: nat, taken: seq<int>, left: seq<int>)
    requires p + n <= |data| && taken + left == data[..p] + data[p..p + n] && |left| <= n
    ensures taken == data[..p + n - |left|]
  {
    assert data[..p] + data[p..p + n] == data[..p + n];
    var k := p + n - |left|;
    assert taken == (taken + left)[..k] == data[..p + n][..k];
  }
}
