/** The calls of BZ2_bzCompress over one stream of data: how each answers, and which of them flush. */
module CompressCalls {
  import opened Blocks
  import opened Compressor

  /** One call: how much of the remaining data to offer and how much room to give. */
  datatype Call = Call(action: Action, offer: nat, space: nat)

  /** How much has been taken and given, and what the next call finds. */
  datatype Mark = Mark(taken: nat, given: nat, mode: Mode, promised: int)

  /** How much of the data a call offers. */
  function Offered(data: seq<int>, call: Call, m: Mark): nat
    requires m.taken <= |data|
  {
    if m.taken + call.offer <= |data| then call.offer else |data| - m.taken
  }

  /** One call answers as it should. */
  ghost predicate Moves(data: seq<int>, call: Call, ret: Ret, before: Mark, after: Mark) {
    && before.taken <= after.taken <= |data|
    && var n := Offered(data, call, before);
       Answers(before.mode, before.promised, call.action, n, call.space, ret, after.mode, after.promised,
         before.taken + n - after.taken, after.given - before.given)
  }

  ghost predicate AllMove(data: seq<int>, calls: seq<Call>, rets: seq<Ret>, marks: seq<Mark>) {
    && |rets| <= |calls| && |marks| == |rets| + 1 && marks[0] == Mark(0, 0, Running, 0)
    && forall i {:trigger rets[i]} :: 0 <= i < |rets| ==> Moves(data, calls[i], rets[i], marks[i], marks[i + 1])
  }

  lemma MoveMore(data: seq<int>, calls: seq<Call>, rets: seq<Ret>, marks: seq<Mark>, ret: Ret, mark: Mark)
    requires AllMove(data, calls, rets, marks) && |rets| < |calls|
      && Moves(data, calls[|rets|], ret, marks[|rets|], mark)
    ensures AllMove(data, calls, rets + [ret], marks + [mark])
  {
  }

  // ---- flushes ----

  /** The flushes that are done, and how much had been taken when the present one began. */
  datatype Op = Op(places: seq<Place>, begun: nat)

  /** Where one call finds it. */
  ghost function Begun(op: Op, mode: Mode, taken: nat): Op { if mode == Running then Op(op.places, taken) else op }

  /** The call completes a flush, or the stream. */
  predicate Completes(action: Action, ret: Ret) { (action == Flush && ret == RunOk) || ret == StreamEnd }

  ghost function Concluded(op: Op, action: Action, ret: Ret, taken: nat): Op {
    if Completes(action, ret) then Op(op.places + [Place(taken, taken > op.begun, ret == StreamEnd)], op.begun) else op
  }

  /** The flushes among these calls. */
  ghost function Flushes(calls: seq<Call>, rets: seq<Ret>, marks: seq<Mark>): Op
    requires |rets| <= |calls| && |marks| == |rets| + 1
  {
    if rets == [] then Op([], 0)
    else
      var m := |rets| - 1;
      var op := Begun(Flushes(calls, rets[..m], marks[..m + 1]), marks[m].mode, marks[m].taken);
      Concluded(op, calls[m].action, rets[m], marks[m + 1].taken)
  }

  lemma FlushesMore(calls: seq<Call>, rets: seq<Ret>, marks: seq<Mark>, ret: Ret, mark: Mark)
    requires |rets| < |calls| && |marks| == |rets| + 1
    ensures var last := marks[|rets|];
      Flushes(calls, rets + [ret], marks + [mark])
        == Concluded(Begun(Flushes(calls, rets, marks), last.mode, last.taken), calls[|rets|].action, ret, mark.taken)
  {
    assert (rets + [ret])[..|rets|] == rets && (marks + [mark])[..|rets| + 1] == marks;
  }

  lemma AllMoveFront(data: seq<int>, calls: seq<Call>, rets: seq<Ret>, marks: seq<Mark>)
    requires AllMove(data, calls, rets, marks) && rets != []
    ensures var m := |rets| - 1;
      AllMove(data, calls, rets[..m], marks[..m + 1]) && Moves(data, calls[m], rets[m], marks[m], marks[m + 1])
  {
    var m := |rets| - 1;
    assert Moves(data, calls[m], rets[m], marks[m], marks[m + 1]);
    forall i {:trigger rets[..m][i]} | 0 <= i < m
      ensures Moves(data, calls[i], rets[..m][i], marks[..m + 1][i], marks[..m + 1][i + 1])
    {
      assert rets[..m][i] == rets[i];
    }
  }

  /** The stream has ended: the last flush was then, and nothing has been taken since. */
  ghost predicate EndsAt(places: seq<Place>, taken: nat) {
    places != [] && places[|places| - 1].at == taken && places[|places| - 1].last
  }

  lemma {:induction false} EndedThere(data: seq<int>, calls: seq<Call>, rets: seq<Ret>, marks: seq<Mark>)
    requires AllMove(data, calls, rets, marks)
    ensures var places := Flushes(calls, rets, marks).places;
      if marks[|rets|].mode == Idle then EndsAt(places, marks[|rets|].taken)
      else forall i {:trigger places[i]} :: 0 <= i < |places| ==> !places[i].last
    decreases |rets|
  {
    if rets != [] {
      AllMoveFront(data, calls, rets, marks);
      EndedThere(data, calls, rets[..|rets| - 1], marks[..|rets|]);
    }
  }

  /** Without a flush there is one place: the end. */
  lemma {:induction false} OnlyTheEnd(data: seq<int>, calls: seq<Call>, rets: seq<Ret>, marks: seq<Mark>)
    requires AllMove(data, calls, rets, marks)
      && forall i {:trigger calls[i]} :: 0 <= i < |calls| ==> calls[i].action != Flush
    ensures |Flushes(calls, rets, marks).places| == if marks[|rets|].mode == Idle then 1 else 0
    decreases |rets|
  {
    if rets != [] {
      var m := |rets| - 1;
      AllMoveFront(data, calls, rets, marks);
      OnlyTheEnd(data, calls, rets[..m], marks[..m + 1]);
      assert calls[m].action != Flush;
    }
  }

  /** How far the present flush has got: done says that its block is made. */
  ghost predicate Stage(mode: Mode, done: bool, promised: int, taken: nat, log: Log, op: Op) {
    if mode == Running || mode == Idle then Places(log.segs) == op.places
    else if done then
      promised == 0 && Places(log.segs) == op.places + [Place(taken, taken > op.begun, mode == Finishing)]
    else
      promised >= 0 && Places(log.segs) == op.places && op.begun <= taken && (promised == 0 ==> taken == op.begun)
  }

  /** What a turn of the loop does to it. */
  lemma StageTurn(a: View, outputting: bool, b: View, progress: bool, stop: bool, flushed: bool, log: Log, next: Log,
      op: Op)
    requires WentNow(a, outputting, b, progress, stop, flushed, 0) && a.mode != Idle
    requires |a.taken| == |SegBytes(log.segs)| + |log.open|
    requires var came := Came(a.nextIn, b.nextIn);
      next == if flushed then FlushLog(log, came, b.mode == Finishing) else log.(open := log.open + came)
    requires Stage(a.mode, outputting && a.ch == 256, |a.nextIn|, |a.taken|, log, op)
    ensures Stage(b.mode, b.ch == 256, |b.nextIn|, |b.taken|, next, op)
  {
    var came := Came(a.nextIn, b.nextIn);
    assert |a.taken| + |a.nextIn| == |b.taken| + |b.nextIn|;
    if flushed { PlacesMore(log.segs, Seg(log.open + came, came != [], b.mode == Finishing)); }
  }

  /** A call begins. */
  lemma StageBegins(mode: Mode, done: bool, promised: int, taken: nat, log: Log, op: Op, n: nat, action: Action)
    requires Stage(mode, done, promised, taken, log, op) && Goes(mode, promised, action, n)
    requires mode == Running && action != Run ==> !done
    ensures var after := if action == Run then Running else if action == Flush then Flushing else Finishing;
      Stage(after, done, n, taken, log, Begun(op, mode, taken))
  {
  }

  /** And ends. */
  lemma StageEnds(mode: Mode, done: bool, n: int, taken: nat, log: Log, op: Op, after: Mode, done': bool,
      action: Action, ret: Ret, owed: int)
    requires Stage(mode, done, n, taken, log, op)
    requires mode == if action == Run then Running else if action == Flush then Flushing else Finishing
    requires if Completes(action, ret) then done && (after == if ret == StreamEnd then Idle else Running)
        && (ret == StreamEnd <==> mode == Finishing)
      else after == mode && (mode != Running ==> done == done' && owed == n)
    ensures Stage(after, done', owed, taken, log, Concluded(op, action, ret, taken))
  {
  }
}
