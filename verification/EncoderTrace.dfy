/** The calls of BZ2_compressBlock in a compression, with what each was given and what it made. */
module EncoderTrace {
  import opened Rle
  import opened Blocks
  import opened Crcs
  import opened EncodeStream

  /** A call: the block and its CRC, whether it is the first and whether it is the last, and the bit buffer and combined
      CRC before it; the bytes it made and the bit buffer and combined CRC after it. */
  datatype Made = Made(chunk: Chunk, crc: int, first: bool, before: Enc, bytes: seq<int>, after: Enc)

  ghost function BlockCrc(k: Crc, data: seq<int>): int { Fold(k, k.init, UnRle(data, 0, 0)) }

  /** The encoder after some calls. */
  ghost function After(t: seq<Made>): Enc {
    if t == [] then Enc(0, 0, 0) else t[|t| - 1].after
  }

  ghost function AllMade(t: seq<Made>): seq<int> {
    if t == [] then [] else AllMade(t[..|t| - 1]) + t[|t| - 1].bytes
  }

  /** The calls for the blocks h, each from where the one before it left the encoder. */
  ghost predicate Calls(k: Crc, h: seq<Chunk>, t: seq<Made>) {
    |t| == |h| && forall i: nat {:trigger CallFor(k, h, t, i)} :: i < |t| ==> CallFor(k, h, t, i)
  }

  ghost predicate CallFor(k: Crc, h: seq<Chunk>, t: seq<Made>, i: nat)
    requires i < |t| && i < |h|
  {
    Given(t[i]) == (h[i], BlockCrc(k, h[i].data), i == 0, After(t[..i]))
  }

  /** They left the encoder so, and made these bytes. */
  ghost predicate Traced(k: Crc, h: seq<Chunk>, t: seq<Made>, e: Enc, made: seq<int>) {
    Calls(k, h, t) && e == After(t) && made == AllMade(t)
  }

  lemma TracedMore(k: Crc, h: seq<Chunk>, t: seq<Made>, e: Enc, made: seq<int>, c: Made)
    requires Traced(k, h, t, e, made) && c.crc == BlockCrc(k, c.chunk.data) && c.first == (h == []) && c.before == e
    ensures Traced(k, h + [c.chunk], t + [c], c.after, made + c.bytes)
  {
    var u := t + [c];
    assert u[..|t|] == t;
    forall i: nat {:trigger CallFor(k, h + [c.chunk], u, i)} | i < |u| ensures CallFor(k, h + [c.chunk], u, i) {
      if i < |t| {
        assert CallFor(k, h, t, i);
        assert u[..i] == t[..i] && u[i] == t[i];
      }
    }
  }

  /** BZ2_compressBlock makes the same of the same. */
  ghost predicate SameMakesSame(t: seq<Made>, u: seq<Made>) {
    forall i, j {:trigger t[i], u[j]} :: 0 <= i < |t| && 0 <= j < |u| && Given(t[i]) == Given(u[j]) ==> t[i] == u[j]
  }

  /** What a call is given. */
  function Given(c: Made): (Chunk, int, bool, Enc) { (c.chunk, c.crc, c.first, c.before) }

  /** Then it makes the same bytes of the same blocks. */
  lemma {:induction false} SameBytes(k: Crc, h: seq<Chunk>, t: seq<Made>, u: seq<Made>)
    requires Calls(k, h, t) && Calls(k, h, u) && SameMakesSame(t, u)
    ensures t == u
  {
    SameUpTo(k, h, t, u, |t|);
    assert t[..|t|] == t && u[..|t|] == u;
  }

  lemma {:induction false} SameUpTo(k: Crc, h: seq<Chunk>, t: seq<Made>, u: seq<Made>, n: nat)
    requires Calls(k, h, t) && Calls(k, h, u) && SameMakesSame(t, u) && n <= |t|
    ensures t[..n] == u[..n]
  {
    if n > 0 {
      var m := n - 1;
      SameUpTo(k, h, t, u, m);
      assert CallFor(k, h, t, m) && CallFor(k, h, u, m);
      assert Given(t[m]) == Given(u[m]);
      assert t[m] == u[m];
      assert t[..n] == t[..m] + [t[m]] && u[..n] == u[..m] + [u[m]];
    }
  }
}
