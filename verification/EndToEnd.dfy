/** Compressing and decompressing: whatever the calls on either side, the data comes back. */
module EndToEnd {
  import opened Sequences
  import opened Bits
  import opened BitIo
  import opened Crcs
  import M = DecodeMachine
  import opened StreamMeaning
  import E = EncodeStream
  import Compressor
  import CC = CompressCalls
  import C = CompressStream
  import D = Decompressor

  /** How much of the compressed bytes to offer in a call, and how much room to give. */
  datatype Cut = Cut(offer: nat, room: nat)

  /** How many of n bytes the cuts offer. */
  function Offered(cuts: seq<Cut>, n: nat): (r: nat)
    ensures r <= n
  {
    if cuts == [] then 0
    else
      var m := Offered(cuts[..|cuts| - 1], n) + cuts[|cuts| - 1].offer;
      if m <= n then m else n
  }

  /** The calls that feed some bytes in these cuts. */
  function Sliced(bytes: seq<int>, cuts: seq<Cut>): (r: seq<D.Call>)
    ensures |r| == |cuts|
  {
    if cuts == [] then []
    else
      var m := |cuts| - 1;
      Sliced(bytes, cuts[..m]) + [D.Call(bytes[Offered(cuts[..m], |bytes|)..Offered(cuts, |bytes|)], cuts[m].room)]
  }

  method Slice(bytes: seq<int>, cuts: seq<Cut>) returns (calls: seq<D.Call>)
    ensures calls == Sliced(bytes, cuts)
  {
    calls := [];
    var p: nat := 0;
    for i := 0 to |cuts|
      invariant p == Offered(cuts[..i], |bytes|) && calls == Sliced(bytes, cuts[..i])
    {
      assert cuts[..i + 1][..i] == cuts[..i];
      var n := if p + cuts[i].offer <= |bytes| then p + cuts[i].offer else |bytes|;
      calls, p := calls + [D.Call(bytes[p..n], cuts[i].room)], n;
    }
    assert cuts[..|cuts|] == cuts;
  }

  lemma {:induction false} SlicedInputs(bytes: seq<int>, cuts: seq<Cut>)
    ensures D.Inputs(Sliced(bytes, cuts)) == bytes[..Offered(cuts, |bytes|)]
    decreases |cuts|
  {
    if cuts != [] {
      var m := |cuts| - 1;
      SlicedInputs(bytes, cuts[..m]);
      assert Sliced(bytes, cuts)[..m] == Sliced(bytes, cuts[..m]);
      Pieces(bytes, Offered(cuts[..m], |bytes|), Offered(cuts, |bytes|));
    }
  }

  lemma Pieces(bytes: seq<int>, p: nat, q: nat)
    requires p <= q <= |bytes|
    ensures bytes[..p] + bytes[p..q] == bytes[..q]
  {
  }

  /** The calls offer bytes and give the room of their cuts. */
  ghost predicate Fit(calls: seq<D.Call>, cuts: seq<Cut>) {
    |calls| == |cuts| && forall i {:trigger calls[i]} :: 0 <= i < |calls| ==>
      AreBytes(calls[i].input) && calls[i].room == cuts[i].room
  }

  lemma {:induction false} SlicedFit(bytes: seq<int>, cuts: seq<Cut>)
    requires AreBytes(bytes)
    ensures Fit(Sliced(bytes, cuts), cuts)
    decreases |cuts|
  {
    if cuts != [] {
      var m := |cuts| - 1;
      SlicedFit(bytes, cuts[..m]);
      FitMore(Sliced(bytes, cuts[..m]), cuts,
        D.Call(bytes[Offered(cuts[..m], |bytes|)..Offered(cuts, |bytes|)], cuts[m].room));
    }
  }

  lemma FitMore(calls: seq<D.Call>, cuts: seq<Cut>, call: D.Call)
    requires cuts != [] && Fit(calls, cuts[..|cuts| - 1]) && AreBytes(call.input) && call.room == cuts[|cuts| - 1].room
    ensures Fit(calls + [call], cuts)
  {
    var all := calls + [call];
    forall i {:trigger all[i]} | 0 <= i < |all| ensures AreBytes(all[i].input) && all[i].room == cuts[i].room {
      if i < |calls| { assert AreBytes(calls[i].input) && calls[i].room == cuts[..|cuts| - 1][i].room; }
    }
  }

  /** A session that has seen some first part of a stream. */
  lemma SessionOn(k: Crc, calls: seq<D.Call>, used: nat, rest: seq<int>, bytes: seq<int>, out: seq<int>, reply: D.Reply,
      data: seq<int>)
    requires used <= |calls| && forall i {:trigger calls[i]} :: 0 <= i < |calls| ==> AreBytes(calls[i].input)
    requires AreBytes(bytes) && AreBytes(rest) && D.Inputs(calls) + rest == bytes && AreBytes(D.Inputs(calls[..used]))
    requires D.Concludes(k, ByteBits(D.Inputs(calls[..used])), out, reply)
    requires Stream(k, M.Init(), 0, ByteBits(bytes)) == Meaning(data, WellEnded)
    ensures reply == D.ROk ==> out <= data
    ensures reply != D.ROk ==> reply == D.RStreamEnd && out == data
  {
    var more := D.InputsPrefix(calls, used);
    var fed := D.Inputs(calls[..used]);
    Assoc(fed, more, rest);
    ByteBitsAppend(fed, more + rest);
    D.EndsRight(k, ByteBits(fed), ByteBits(more + rest), out, reply, data);
  }

  /** The last call of a session that has been fed a whole stream has filled its room, or the stream has ended. */
  lemma LastCall(k: Crc, calls: seq<D.Call>, outs: seq<seq<int>>, reply: D.Reply, bytes: seq<int>, data: seq<int>)
    requires D.History(k, calls, outs, reply) && |outs| == |calls| + 1 && calls != [] && reply == D.ROk
      && D.Inputs(calls) == bytes && AreBytes(bytes)
    requires Stream(k, M.Init(), 0, ByteBits(bytes)) == Meaning(data, WellEnded)
    ensures |outs[|calls|]| - |outs[|calls| - 1]| == calls[|calls| - 1].room
  {
    var i := |calls| - 1;
    assert calls[..i + 1] == calls;
    assert D.Told(k, calls, i, outs[i], D.After(outs, i), D.ROk);
  }

  /** All that was offered has been decompressed to what was taken: out is a first part of it at any time, and all of it
      when the decompressor stops asking for more, which it does only at the end of the stream. */
  ghost predicate ComesBack(data: seq<int>, compressed: seq<int>, cuts: seq<Cut>, outs: seq<seq<int>>, reply: D.Reply) {
    && 0 < |outs| <= |cuts| + 1 && (reply == D.ROk ==> |outs| == |cuts| + 1)
    && var out := outs[|outs| - 1];
       && out <= data && (reply != D.ROk ==> reply == D.RStreamEnd && out == data)
       && (cuts != [] && Offered(cuts, |compressed|) == |compressed| && reply == D.ROk ==>
             |out| - |outs[|cuts| - 1]| == cuts[|cuts| - 1].room)
  }

  lemma AllBack(k: Crc, bytes: seq<int>, cuts: seq<Cut>, used: nat, outs: seq<seq<int>>, reply: D.Reply, data: seq<int>)
    requires AreBytes(bytes) && used <= |cuts| && (reply == D.ROk ==> used == |cuts|) && |outs| == used + 1
    requires Stream(k, M.Init(), 0, ByteBits(bytes)) == Meaning(data, WellEnded)
    requires var calls := Sliced(bytes, cuts);
      D.History(k, calls, outs, reply) && AreBytes(D.Inputs(calls[..used]))
        && D.Concludes(k, ByteBits(D.Inputs(calls[..used])), outs[used], reply)
    ensures ComesBack(data, bytes, cuts, outs, reply)
  {
    var calls, n := Sliced(bytes, cuts), Offered(cuts, |bytes|);
    Pieces(bytes, n, |bytes|);
    assert bytes[n..|bytes|] == bytes[n..] && bytes[..|bytes|] == bytes;
    SlicedInputs(bytes, cuts);
    SlicedFit(bytes, cuts);
    SessionOn(k, calls, used, bytes[n..], bytes, outs[used], reply, data);
    if reply == D.ROk && cuts != [] && n == |bytes| {
      LastCall(k, calls, outs, reply, bytes, data);
    }
  }

  /** Given all of the compressed bytes, and room for one byte more than there is, the decompressor reports the end. */
  lemma EndReached(data: seq<int>, compressed: seq<int>, cuts: seq<Cut>, outs: seq<seq<int>>, reply: D.Reply)
    requires ComesBack(data, compressed, cuts, outs, reply) && cuts != [] && Offered(cuts, |compressed|) == |compressed|
    requires cuts[|cuts| - 1].room > |data|
    ensures reply == D.RStreamEnd && outs[|outs| - 1] == data
  {
  }

  /** Data compressed in any calls, and what that has given decompressed in any calls once the stream has ended. */
  method RoundTrip(k: Crc, blockSize100k: int, data: seq<int>, calls: seq<CC.Call>, cuts: seq<Cut>)
      returns (s: Compressor.EState, p: nat, rets: seq<Compressor.Ret>, ghost marks: seq<CC.Mark>,
          t: D.DState, reply: D.Reply, ghost outs: seq<seq<int>>)
    requires 1 <= blockSize100k <= 9 && E.GoodCrc(k) && AreBytes(data)
    ensures p <= |data| && s.taken == data[..p] && |rets| == |calls| && CC.AllMove(data, calls, rets, marks)
      && marks[|calls|] == CC.Mark(p, |s.out|, s.mode, s.availInExpect)
    ensures |outs| > 0 && t.v.out == outs[|outs| - 1]
    ensures D.History(k, Sliced(if Compressor.StreamEnd in rets then s.out else [], cuts), outs, reply)
    ensures Compressor.StreamEnd in rets ==> ComesBack(data[..p], s.out, cuts, outs, reply)
  {
    ghost var trace, log;
    s, p, rets, marks, trace, log := C.Session(data, calls, blockSize100k, k);
    var ended := Compressor.StreamEnd in rets;
    var bytes := if ended then s.out else [];
    var dcalls := Slice(bytes, cuts);
    SlicedInputs(bytes, cuts);
    SlicedFit(bytes, cuts);
    var used;
    t, reply, used, outs := D.Session(k, dcalls);
    if ended { AllBack(k, bytes, cuts, used, outs, reply, data[..p]); }
  }
}
