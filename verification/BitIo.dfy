/** The 32-bit bit buffers of the compressor (bsW) and the decompressor (GET_BITS): neither ever
    loses a live bit. */
module BitIo {
  import opened Bits

  const WORD := 4294967296

  ghost predicate AreBytes(s: seq<int>) {
    forall i {:trigger s[i]} :: 0 <= i < |s| ==> 0 <= s[i] < 256
  }

  // ---- arithmetic on words ----

  lemma DivSplit(x: int, q: int, p: int, r: int)
    requires 0 <= r < p && x == q * p + r
    ensures x / p == q && x % p == r
  {
    var d := x / p - q;
    assert x == p * (x / p) + x % p && 0 <= x % p < p;
    LeftTimes(x / p, q, p);
    if d >= 1 { AtLeast(d, p); }
    if d <= -1 { AtLeast(-d, p); Negate(d, p); }
  }

  lemma LeftTimes(x: int, q: int, p: int)
    ensures (x - q) * p == p * x - q * p
  {
  }

  lemma AtLeast(d: int, p: int)
    requires d >= 1 && p >= 0
    ensures d * p >= p
  {
  }

  lemma Negate(d: int, p: int)
    ensures (-d) * p == -(d * p)
  {
  }

  lemma LessTimes(v: int, p: int, q: int)
    requires 0 <= v < p && q > 0
    ensures 0 <= v * q && v * q + q <= p * q
  {
    Positive(v, q);
    AtLeast(p - v, q);
    Minus(p, v, q);
  }

  lemma Minus(x: int, y: int, q: int)
    ensures (x - y) * q == x * q - y * q
  {
  }

  lemma Positive(x: int, y: int)
    requires x >= 0 && y >= 0
    ensures x * y >= 0
  {
  }

  lemma PowWord()
    ensures Pow2(8) == 256 && Pow2(24) == 16777216 && Pow2(32) == WORD
  {
    assert Pow2(8) == 256;
    PowAdd(8, 8);
    PowAdd(8, 16);
    PowAdd(8, 24);
  }

  /** Shifting right keeps the upper bits and masking keeps the lower ones. */
  lemma ShiftMask(w: Bitstring, m: nat)
    requires m <= |w|
    ensures Value(w) / Pow2(m) == Value(w[..|w| - m]) && Value(w) % Pow2(m) == Value(w[|w| - m..])
  {
    var a, b := w[..|w| - m], w[|w| - m..];
    assert w == a + b;
    ValueAppend(a, b);
    ValueBound(b);
    var p := Pow2(m);
    assert Value(w) == Value(a) * p + Value(b);
    DivSplit(Value(w), Value(a), p, Value(b));
  }

  /** (x << 8) | byte on a 32-bit word drops the top byte. */
  lemma ShiftIn(w: Bitstring, byte: nat)
    requires |w| == 32 && byte < 256
    ensures (Value(w) * 256 + byte) % WORD == Value(w[8..] + ToBits(byte, 8))
  {
    PowWord();
    var x := w + ToBits(byte, 8);
    ValueAppend(w, ToBits(byte, 8));
    ValueOfBits(byte, 8);
    ShiftMask(x, 32);
    assert x[8..] == w[8..] + ToBits(byte, 8);
  }

  function Zeros(k: nat): (r: Bitstring)
    ensures |r| == k && forall i {:trigger r[i]} :: 0 <= i < k ==> r[i] == 0
  {
    if k == 0 then [] else Zeros(k - 1) + [0]
  }

  lemma {:induction false} ZeroBits(k: nat)
    ensures ToBits(0, k) == Zeros(k) && Value(Zeros(k)) == 0
  {
    if k > 0 { ZeroBits(k - 1); assert Zeros(k)[..k - 1] == Zeros(k - 1); }
  }

  /** Adding v << k to a word whose low bits are clear puts the bits of v in them. */
  lemma PlaceBits(live: Bitstring, v: nat, n: nat, k: nat)
    requires v < Pow2(n)
    ensures Value(live + Zeros(n + k)) + v * Pow2(k) == Value(live + ToBits(v, n) + Zeros(k))
  {
    ValueOfBits(v, n);
    ValueAppend(live, ToBits(v, n));
    ValuePadded(live, n + k);
    ValuePadded(live + ToBits(v, n), k);
    PowAdd(n, k);
    PlaceSum(Value(live), Pow2(n), v, Pow2(k));
  }

  lemma ValuePadded(s: Bitstring, k: nat)
    ensures Value(s + Zeros(k)) == Value(s) * Pow2(k)
  {
    ZeroBits(k);
    ValueAppend(s, Zeros(k));
  }

  lemma PlaceSum(l: int, pn: int, v: int, p: int)
    ensures (l * pn + v) * p == l * (pn * p) + v * p
  {
  }

  /** The bits or-ed in lie below the live ones. */
  lemma PlaceBelow(v: nat, n: nat, k: nat)
    requires v < Pow2(n)
    ensures v * Pow2(k) < Pow2(n + k)
  {
    PowAdd(n, k);
    LessTimes(v, Pow2(n), Pow2(k));
  }

  /** The word has the live bits at its top and zeros below them. */
  ghost predicate TopWord(buff: int, live: Bitstring) {
    |live| <= 32 && buff == Value(live + Zeros(32 - |live|))
  }

  /** buff | (v << (32 - live - n)): the bits or-ed in lie below the live ones, where buff has zeros. */
  method OrIn(buff: int, bsLive: nat, n: nat, v: nat, ghost live: Bitstring) returns (r: int)
    requires bsLive == |live| && bsLive + n <= 32 && v < Pow2(n) && TopWord(buff, live)
    ensures TopWord(r, live + ToBits(v, n)) && r - buff < Pow2(32 - bsLive)
  {
    ghost var k := 32 - |live| - n;
    PlaceBits(live, v, n, k);
    PlaceBelow(v, n, k);
    ValuePadded(live, 32 - |live|);
    Positive(v, Pow2(k));
    OrAdds(Value(live), 32 - |live|, buff, v * Pow2(k));
    r := Or(buff, v * Pow2(32 - bsLive - n));
  }

  // ---- writing ----

  /** The part of EState that bsW works on. */
  class Writer {
    var bsBuff: int
    var bsLive: int
    var zbits: seq<int>
    ghost var live: Bitstring

    ghost predicate Valid()
      reads this
    {
      bsLive == |live| && TopWord(bsBuff, live) && AreBytes(zbits)
    }

    /** Everything written so far. */
    ghost function Written(): Bitstring
      reads this
      requires Valid()
    {
      ByteBits(zbits) + live
    }

    /** BZ2_bsInitWrite. */
    constructor ()
      ensures Valid() && Written() == [] && zbits == []
    {
      bsBuff, bsLive, zbits, live := 0, 0, [], [];
      ZeroBits(32);
      assert [] + Zeros(32) == Zeros(32);
    }

    /** Moves the top byte of the buffer to the output, live bits or not. */
    method ByteOut() returns (ghost pad: nat)
      requires Valid() && bsLive > 0
      modifies this
      ensures bsLive == old(bsLive) - 8 && AreBytes(zbits) && pad == if old(bsLive) < 8 then 8 - old(bsLive) else 0
      ensures old(bsLive) >= 8 ==> Valid() && Written() == old(Written())
      ensures old(bsLive) <= 8 ==> ByteBits(zbits) == old(Written()) + Zeros(pad)
    {
      ghost var w := live + Zeros(32 - bsLive);
      pad := if bsLive < 8 then 8 - bsLive else 0;
      var byte := bsBuff / 16777216;
      TopByte(w, live, zbits, byte, pad);
      MovedByte(ByteBits(zbits), w, live, pad);
      zbits := zbits + [byte];
      bsBuff := bsBuff * 256 % WORD;
      bsLive := bsLive - 8;
      if bsLive >= 0 { live := live[8..]; }
    }

    /** bsNEEDW: leaves fewer than eight bits in the buffer. */
    method NeedW()
      requires Valid()
      modifies this
      ensures Valid() && Written() == old(Written()) && bsLive < 8
    {
      while bsLive >= 8
        invariant Valid() && Written() == old(Written())
        decreases bsLive
      {
        ghost var pad := ByteOut();
      }
    }

    /** bsW: appends the n bits of v. */
    method Put(n: nat, v: nat)
      requires Valid() && n <= 25 && v < Pow2(n)
      modifies this
      ensures Valid() && Written() == old(Written()) + ToBits(v, n) && bsLive < 8 + n
    {
      NeedW();
      ghost var was, bits := live, ToBits(v, n);
      bsBuff := OrIn(bsBuff, bsLive, n, v, live);
      bsLive := bsLive + n;
      live := was + bits;
      assert ByteBits(zbits) + (was + bits) == (ByteBits(zbits) + was) + bits;
    }

    /** bsFinishWrite: flushes, padding the last byte with zeros. */
    method Finish() returns (ghost pad: nat)
      requires Valid()
      modifies this
      ensures AreBytes(zbits) && pad < 8 && ByteBits(zbits) == old(Written()) + Zeros(pad)
    {
      pad := 0;
      ghost var all := Written();
      while bsLive > 0
        invariant bsLive > 0 ==> Valid() && Written() == all
        invariant bsLive <= 0 ==> AreBytes(zbits) && pad < 8 && ByteBits(zbits) == all + Zeros(pad)
        decreases bsLive
      {
        pad := ByteOut();
      }
    }
  }

  lemma MovedByte(z: Bitstring, w: Bitstring, live: Bitstring, pad: nat)
    requires 0 < |live| <= 32 && w == live + Zeros(32 - |live|) && pad == if |live| < 8 then 8 - |live| else 0
    ensures |live| >= 8 ==> (z + w[..8]) + live[8..] == z + live && w[8..] + Zeros(8) == live[8..] + Zeros(40 - |live|)
    ensures |live| <= 8 ==> z + w[..8] == (z + live) + Zeros(pad)
  {
    if |live| >= 8 {
      assert w[..8] == live[..8] && live == live[..8] + live[8..];
    } else {
      assert w[..8] == live + Zeros(pad);
    }
  }

  /** The byte at the top of the word w. */
  lemma TopByte(w: Bitstring, live: Bitstring, zbits: seq<int>, byte: int, pad: nat)
    requires 0 < |live| <= 32 && w == live + Zeros(32 - |live|) && AreBytes(zbits) && byte == Value(w) / 16777216
    ensures 0 <= byte < 256 && AreBytes(zbits + [byte]) && Value(w) * 256 % WORD == Value(w[8..] + Zeros(8))
    ensures ByteBits(zbits + [byte]) == ByteBits(zbits) + w[..8]
  {
    ByteValue(w, byte);
    ByteAdded(zbits, byte, w[..8]);
    ZeroShifted(w);
  }

  lemma ZeroShifted(w: Bitstring)
    requires |w| == 32
    ensures Value(w) * 256 % WORD == Value(w[8..] + Zeros(8))
  {
    var zero := 0;
    ShiftIn(w, zero);
    ZeroBits(8);
  }

  lemma ByteValue(w: Bitstring, byte: int)
    requires |w| == 32 && byte == Value(w) / 16777216
    ensures byte == Value(w[..8]) && 0 <= byte < 256
  {
    PowWord();
    ShiftMask(w, 24);
    ValueBound(w[..8]);
  }

  lemma ByteAdded(zbits: seq<int>, byte: int, bits: Bitstring)
    requires AreBytes(zbits) && |bits| == 8 && byte == Value(bits) && 0 <= byte < 256
    ensures AreBytes(zbits + [byte]) && ByteBits(zbits + [byte]) == ByteBits(zbits) + bits
  {
    BitsOfValue(bits);
    ByteBitsAppend(zbits, [byte]);
    assert ByteBits([byte]) == ToBits(byte, 8) + ByteBits([]);
  }

  // ---- reading ----

  /** The part of DState and its stream that GET_BITS works on; next is the input not read yet. */
  class Reader {
    var bsBuff: int
    var bsLive: int
    var next: seq<int>
    ghost var word: Bitstring

    /** The low bsLive bits of bsBuff are live; above them are bits already used. */
    ghost predicate Valid()
      reads this
    {
      |word| == 32 && 0 <= bsLive <= 32 && bsBuff == Value(word) && AreBytes(next)
    }

    /** The bits still to be read. */
    ghost function Coming(): Bitstring
      reads this
      requires Valid()
    {
      word[32 - bsLive..] + ByteBits(next)
    }

    constructor (input: seq<int>)
      requires AreBytes(input)
      ensures Valid() && Coming() == ByteBits(input) && bsLive == 0
    {
      bsBuff, bsLive, next, word := 0, 0, input, Zeros(32);
      ZeroBits(32);
    }

    /** More input arrives. */
    method Feed(input: seq<int>)
      requires Valid() && AreBytes(input)
      modifies this
      ensures Valid() && Coming() == old(Coming()) + ByteBits(input)
    {
      ByteBitsAppend(next, input);
      next := next + input;
    }

    method ByteIn()
      requires Valid() && bsLive <= 24 && next != []
      modifies this
      ensures Valid() && Coming() == old(Coming()) && bsLive == old(bsLive) + 8 && |next| == old(|next|) - 1
    {
      var byte := next[0];
      ShiftIn(word, byte);
      ghost var now := word[8..] + ToBits(byte, 8);
      assert now[32 - (bsLive + 8)..] == word[32 - bsLive..] + ToBits(byte, 8);
      assert ByteBits(next) == ToBits(byte, 8) + ByteBits(next[1..]);
      bsBuff := (bsBuff * 256 + byte) % WORD;
      bsLive := bsLive + 8;
      word := now;
      next := next[1..];
    }

    /** GET_BITS. When the input runs out it stops without losing what it has, to be called again. */
    method Get(n: nat) returns (ok: bool, v: nat)
      requires Valid() && n <= 25
      modifies this
      ensures Valid() && (ok <==> |old(Coming())| >= n)
      ensures ok ==> v == Value(old(Coming())[..n]) && Coming() == old(Coming())[n..]
      ensures !ok ==> Coming() == old(Coming()) && next == []
    {
      ghost var all := Coming();
      v := 0;
      while bsLive < n
        invariant Valid() && Coming() == all
        decreases |next|
      {
        if next == [] { return false, 0; }
        ByteIn();
      }
      TakeBits(word, bsLive, n);
      assert all[..n] == word[32 - bsLive..][..n] && all[n..] == word[32 - (bsLive - n)..] + ByteBits(next);
      v := bsBuff / Pow2(bsLive - n) % Pow2(n);
      bsLive := bsLive - n;
      ok := true;
    }
  }

  /** (bsBuff >> (bsLive - n)) & ((1 << n) - 1). */
  lemma TakeBits(w: Bitstring, live: nat, n: nat)
    requires |w| == 32 && n <= live <= 32
    ensures Value(w) / Pow2(live - n) % Pow2(n) == Value(w[32 - live..][..n])
  {
    var u := w[..32 - (live - n)];
    ShiftMask(w, live - n);
    ShiftMask(u, n);
    assert u[|u| - n..] == w[32 - live..][..n];
  }
}
