/** Base32 as in section 6 of RFC 4648, without padding: bits in groups of five, written and read byte by byte. */
module Base32 {
  import opened Sequences
  import opened Bits
  import opened BitIo

  // ---- sequences ----

  lemma Around<T>(s: seq<T>, k: nat)
    requires k < |s|
    ensures s == s[..k] + ([s[k]] + s[k + 1..]) && s[..k + 1] == s[..k] + [s[k]]
  {
  }

  lemma Cut<T>(s: seq<T>, k: nat)
    requires k <= |s|
    ensures s == s[..k] + s[k..]
  {
  }

  lemma PowSmall()
    ensures Pow2(5) == 32 && Pow2(8) == 256
  {
  }

  /** The upper bits of a number. */
  lemma Upper(v: nat, n: nat, k: nat)
    requires k <= n && v < Pow2(n)
    ensures v / Pow2(k) == Value(ToBits(v, n)[..n - k]) && v % Pow2(k) == Value(ToBits(v, n)[n - k..])
  {
    ValueOfBits(v, n);
    ShiftMask(ToBits(v, n), k);
  }

  // ---- bits in the upper part of a word ----

  /** The value of an n-bit word that starts with these bits and goes on with zeros. */
  function Placed(s: Bitstring, n: nat): nat
    requires |s| <= n
  {
    Value(s) * Pow2(n - |s|)
  }

  /** These bits, cut off or followed by zeros. */
  ghost predicate Fits(r: Bitstring, bits: Bitstring) {
    forall k {:trigger Within(k, |r|)} :: Within(k, |r|) ==> r[k] == if k < |bits| then bits[k] else 0
  }

  ghost predicate Within(k: int, n: int) { 0 <= k < n }

  lemma PlacedBound(s: Bitstring, n: nat)
    requires |s| <= n
    ensures Placed(s, n) < Pow2(n) && (|s| == n ==> Placed(s, n) == Value(s)) && (s == [] ==> Placed(s, n) == 0)
  {
    ValueBound(s);
    PlaceBelow(Value(s), |s|, n - |s|);
  }

  lemma PlacedFits(s: Bitstring, n: nat)
    requires |s| <= n
    ensures Fits(ToBits(Placed(s, n), n), s)
  {
    var w := s + Zeros(n - |s|);
    ValuePadded(s, n - |s|);
    BitsOfValue(w);
    assert forall k {:trigger Within(k, n)} :: Within(k, n) ==> w[k] == if k < |s| then s[k] else 0;
  }

  lemma PlacedMore(s: Bitstring, t: Bitstring, n: nat)
    requires |s| + |t| <= n
    ensures Placed(s + t, n) == Placed(s, n) + Placed(t, n - |s|)
  {
    ValueAppend(s, t);
    var k := n - |s| - |t|;
    PowAdd(|t|, k);
    PlaceSum(Value(s), Pow2(|t|), Value(t), Pow2(k));
  }

  // ---- the alphabet ----

  /** base32Alphabet. */
  function Letter(d: int): (c: int)
    requires 0 <= d < 32
    ensures 'A' as int <= c <= 'Z' as int || '2' as int <= c <= '7' as int
    ensures Digit(c) == d && c == "ABCDEFGHIJKLMNOPQRSTUVWXYZ234567"[d] as int
  {
    if d < 26 then 'A' as int + d else '2' as int + d - 26
  }

  /** base32Table, -1 for what is not recognised. */
  function Digit(c: int): (d: int)
    ensures -1 <= d < 32
  {
    if 'A' as int <= c <= 'Z' as int then c - 'A' as int
    else if 'a' as int <= c <= 'z' as int then c - 'a' as int
    else if '2' as int <= c <= '7' as int then c - '2' as int + 26
    else -1
  }

  type Quintet = d: int | 0 <= d < 32

  type Digits32 = seq<Quintet>

  // ---- what the text of some bytes is ----

  /** The bits in groups of five, the last filled up with zeros. */
  function Groups(bits: Bitstring): (r: Digits32)
    ensures |bits| <= 5 * |r| < |bits| + 5
    decreases |bits|
  {
    if bits == [] then []
    else
      var n := if |bits| < 5 then |bits| else 5;
      PlacedBound(bits[..n], 5);
      [Placed(bits[..n], 5)] + Groups(bits[n..])
  }

  function Letters(ds: Digits32): (r: seq<int>)
    ensures |r| == |ds|
    ensures forall i {:trigger r[i]} ::
      0 <= i < |r| ==> 'A' as int <= r[i] <= 'Z' as int || '2' as int <= r[i] <= '7' as int
  {
    seq(|ds|, i requires 0 <= i < |ds| => Letter(ds[i]))
  }

  function Text(b: seq<int>): (r: seq<int>)
    requires AreBytes(b)
    ensures 8 * |b| <= 5 * |r| < 8 * |b| + 5
    ensures forall i {:trigger r[i]} ::
      0 <= i < |r| ==> 'A' as int <= r[i] <= 'Z' as int || '2' as int <= r[i] <= '7' as int
  {
    Letters(Groups(ByteBits(b)))
  }

  /** The bits not written yet. */
  ghost function Rest(src: seq<int>, i: nat, index: nat): Bitstring
    requires AreBytes(src) && i <= |src| && index < 8
  {
    if i < |src| then ToBits(src[i], 8)[index..] + ByteBits(src[i + 1..]) else []
  }

  /** The word taken from one byte. */
  lemma WordWithin(b: int, index: nat)
    requires 0 <= b < 256 && index <= 3
    ensures b / Pow2(3 - index) % 32 == Value(ToBits(b, 8)[index..index + 5])
  {
    PowSmall();
    var w := ToBits(b, 8);
    Upper(b, 8, 3 - index);
    ShiftMask(w[..index + 5], 5);
    assert w[..index + 5][index..] == w[index..index + 5];
  }

  lemma NextGroup(bits: Bitstring, group: Bitstring, rest: Bitstring)
    requires |group| == 5 && bits == group + rest
    ensures Value(group) < 32 && Groups(bits) == [Value(group)] + Groups(rest)
  {
    PlacedBound(group, 5);
    assert bits[..5] == group && bits[5..] == rest;
  }

  lemma LettersMore(ds: Digits32, d: int, tail: Digits32)
    requires 0 <= d < 32 && ds == [d] + tail
    ensures Letters(ds) == [Letter(d)] + Letters(tail)
  {
  }

  lemma RestWithin(src: seq<int>, i: nat, index: nat)
    requires AreBytes(src) && i < |src| && index <= 3
    ensures Rest(src, i, index) == ToBits(src[i], 8)[index..index + 5] +
      if index == 3 then Rest(src, i + 1, 0) else Rest(src, i, index + 5)
  {
    var w := ToBits(src[i], 8);
    if index == 3 {
      RestWhole(src, i + 1);
      assert w[3..] == w[3..8];
    } else {
      assert w[index..] == w[index..index + 5] + w[index + 5..];
      Assoc(w[index..index + 5], w[index + 5..], ByteBits(src[i + 1..]));
    }
  }

  lemma RestWhole(src: seq<int>, i: nat)
    requires AreBytes(src) && i <= |src|
    ensures Rest(src, i, 0) == ByteBits(src[i..])
  {
    if i < |src| { assert src[i..][1..] == src[i + 1..]; }
  }

  /** One word inside a byte. */
  lemma StepWithin(src: seq<int>, i: nat, index: nat)
    requires AreBytes(src) && i < |src| && index <= 3
    ensures var word := src[i] / Pow2(3 - index) % 32;
            Letters(Groups(Rest(src, i, index))) ==
              [Letter(word)] + Letters(Groups(if index == 3 then Rest(src, i + 1, 0) else Rest(src, i, index + 5)))
  {
    var w, word := ToBits(src[i], 8), src[i] / Pow2(3 - index) % 32;
    var rest := if index == 3 then Rest(src, i + 1, 0) else Rest(src, i, index + 5);
    WordWithin(src[i], index);
    RestWithin(src, i, index);
    NextGroup(Rest(src, i, index), w[index..index + 5], rest);
    LettersMore(Groups(Rest(src, i, index)), word, Groups(rest));
  }

  lemma RestAcross(high: Bitstring, w: Bitstring, k: nat, src: seq<int>, i: nat)
    requires AreBytes(src) && i + 1 < |src| && w == ToBits(src[i + 1], 8) && k < 8
    ensures high + ByteBits(src[i + 1..]) == (high + w[..k]) + Rest(src, i + 1, k)
  {
    var tail := ByteBits(src[i + 2..]);
    RestWhole(src, i + 1);
    assert w[0..] == w;
    Cut(w, k);
    Assoc(w[..k], w[k..], tail);
    Assoc(high, w[..k], w[k..] + tail);
  }

  lemma HighWord(b: int, index: nat)
    requires 0 <= b < 256 && 3 < index < 8
    ensures b % Pow2(8 - index) * Pow2(index - 3) == Placed(ToBits(b, 8)[index..], 5) < 32
  {
    PowSmall();
    Upper(b, 8, 8 - index);
    PlacedBound(ToBits(b, 8)[index..], 5);
  }

  lemma LowWord(high: Bitstring, b: int, k: nat)
    requires 0 <= b < 256 && |high| + k == 5
    ensures Placed(high, 5) + b / Pow2(8 - k) == Value(high + ToBits(b, 8)[..k]) < 32
  {
    var low := ToBits(b, 8)[..k];
    PowSmall();
    Upper(b, 8, 8 - k);
    PlacedMore(high, low, 5);
    PlacedBound(low, k);
    PlacedBound(high + low, 5);
  }

  /** One word that spans two bytes, or runs past the last. */
  lemma StepAcross(src: seq<int>, i: nat, index: nat)
    requires AreBytes(src) && i < |src| && 3 < index < 8
    ensures var word := src[i] % Pow2(8 - index) * Pow2(index - 3) +
        (if i + 1 < |src| then src[i + 1] / Pow2(11 - index) else 0);
            0 <= word < 32
              && Letters(Groups(Rest(src, i, index))) == [Letter(word)] + Letters(Groups(Rest(src, i + 1, index - 3)))
  {
    var high, k := ToBits(src[i], 8)[index..], index - 3;
    var all, rest := Rest(src, i, index), Rest(src, i + 1, k);
    HighWord(src[i], index);
    if i + 1 < |src| {
      var w := ToBits(src[i + 1], 8);
      var group := high + w[..k];
      LowWord(high, src[i + 1], k);
      RestAcross(high, w, k, src, i);
      NextGroup(all, group, rest);
      LettersMore(Groups(all), Value(group), Groups(rest));
    } else {
      assert all == high && all[..|all|] == all && all[|all|..] == [];
      LettersMore(Groups(all), Placed(high, 5), []);
    }
  }

  /** The letters not written yet. */
  ghost function Left(src: seq<int>, i: nat, index: nat): (r: seq<int>)
    requires AreBytes(src) && i <= |src| && index < 8
    ensures i == |src| ==> r == []
  {
    Letters(Groups(Rest(src, i, index)))
  }

  /** (index + 5) & 7. */
  function NextIndex(index: nat): (r: nat)
    requires index < 8
    ensures r == if index > 3 then index - 3 else if index == 3 then 0 else index + 5
  {
    (index + 5) % 8
  }

  /** The word at the end of byte a, and at the start of b if there is one. */
  method AcrossWord(a: int, more: bool, b: int, index: nat) returns (word: int)
    requires 0 <= a < 256 && 0 <= b < 256 && 3 < index < 8
    ensures word == a % Pow2(8 - index) * Pow2(index - 3) + if more then b / Pow2(11 - index) else 0
  {
    var index' := NextIndex(index);
    word := a % Pow2(8 - index);
    Positive(word, Pow2(index'));
    ghost var q := word;
    word := word * Pow2(index');
    if more {
      LowBits(b, index');
      OrAdds(q, index', word, b / Pow2(8 - index'));
      word := Or(word, b / Pow2(8 - index'));
    }
  }

  /** The five bits at bit index of byte i, and where the next ones are. */
  method NextWord(src: seq<int>, i: nat, index: nat) returns (word: int, i': nat, index': nat)
    requires AreBytes(src) && i < |src| && index < 8
    ensures 0 <= word < 32 && 8 * i' + index' == 8 * i + index + 5 && index' < 8 && i' <= |src|
    ensures Left(src, i, index) == [Letter(word)] + Left(src, i', index')
  {
    index' := NextIndex(index);
    i' := i;
    if index > 3 {
      StepAcross(src, i, index);
      word := AcrossWord(src[i], i + 1 < |src|, if i + 1 < |src| then src[i + 1] else 0, index);
      i' := i + 1;
    } else {
      StepWithin(src, i, index);
      word := src[i] / Pow2(8 - (index + 5)) % 32;
      if index' == 0 { i' := i + 1; }
    }
  }

  /** The upper k bits of a byte. */
  lemma LowBits(b: int, k: nat)
    requires 0 <= b < 256 && k <= 8
    ensures 0 <= b / Pow2(8 - k) < Pow2(k)
  {
    PowSmall();
    Upper(b, 8, 8 - k);
    ValueBound(ToBits(b, 8)[..k]);
  }

  /** Util::toBase32: adds the text of src to dst. */
  method ToBase32(src: seq<int>, before: seq<int>) returns (dst: seq<int>)
    requires AreBytes(src)
    ensures dst == before + Text(src)
  {
    var i, index := 0, 0;
    dst := before;
    ghost var done: seq<int> := [];
    RestWhole(src, 0);
    assert src[0..] == src && before + [] == before && [] + Text(src) == Text(src);
    while i < |src|
      invariant 0 <= i <= |src| && 0 <= index < 8
      invariant dst == before + done && done + Left(src, i, index) == Text(src)
      decreases |src| - i, 8 - index
    {
      var word;
      ghost var all := Left(src, i, index);
      word, i, index := NextWord(src, i, index);
      assert all == [Letter(word)] + Left(src, i, index);
      Assoc(done, [Letter(word)], Left(src, i, index));
      Assoc(before, done, [Letter(word)]);
      dst := dst + [Letter(word)];
      done := done + [Letter(word)];
    }
    assert done + [] == done;
  }

  // ---- what the bytes of a text are ----

  /** The digits of a text up to its terminator, skipping what is not recognised. */
  function DigitsOf(t: seq<int>): (r: Digits32)
    decreases |t|
  {
    if t == [] || t[0] == 0 then []
    else if Digit(t[0]) == -1 then DigitsOf(t[1..])
    else [Digit(t[0])] + DigitsOf(t[1..])
  }

  function DigitBits(ds: Digits32): (r: Bitstring)
    ensures |r| == 5 * |ds|
  {
    if ds == [] then [] else DigitBits(ds[..|ds| - 1]) + ToBits(ds[|ds| - 1], 5)
  }

  /** Where a strict reading gives up: the first character that is not recognised, while room is left. */
  ghost predicate Refused(t: seq<int>, k: nat, len: nat) {
    k < |t| && (forall j {:trigger t[j]} :: 0 <= j < k ==> t[j] != 0 && Digit(t[j]) != -1) && t[k] != 0
      && Digit(t[k]) == -1 && 5 * k < 8 * len
  }

  // ---- reading ----

  /** The bytes filled so far hold the bits read so far. */
  ghost predicate Holds(s: seq<int>, offset: nat, cur: Bitstring, bits: Bitstring) {
    AreBytes(s) && offset < |s| && |cur| < 8 && bits == ByteBits(s[..offset]) + cur && s[offset] == Placed(cur, 8) &&
    forall i {:trigger s[i]} :: offset < i < |s| ==> s[i] == 0
  }

  /** The array is full. */
  ghost predicate Full(s: seq<int>, bits: Bitstring) {
    AreBytes(s) && |bits| >= 8 * |s| && Fits(ByteBits(s), bits)
  }

  lemma {:induction false} ZeroBytes(s: seq<int>)
    requires forall i {:trigger s[i]} :: 0 <= i < |s| ==> s[i] == 0
    ensures Fits(ByteBits(s), [])
    decreases |s|
  {
    if s != [] {
      ZeroBytes(s[1..]);
      ZeroBits(8);
      var r := ByteBits(s);
      forall k | Within(k, |r|) ensures r[k] == 0 {
        assert k >= 8 ==> Within(k - 8, |r| - 8);
      }
    }
  }

  /** The bits of an array in three parts. */
  lemma BitsAround(s: seq<int>, k: nat)
    requires AreBytes(s) && k < |s|
    ensures ByteBits(s) == ByteBits(s[..k]) + (ToBits(s[k], 8) + ByteBits(s[k + 1..]))
    ensures ByteBits(s[..k + 1]) == ByteBits(s[..k]) + ToBits(s[k], 8)
  {
    var a, b, c := s[..k], [s[k]], s[k + 1..];
    Around(s, k);
    OneByte(s[k]);
    ByteBitsAppend(b, c);
    ByteBitsAppend(a, b + c);
    ByteBitsAppend(a, b);
  }

  lemma OneByte(b: int)
    requires 0 <= b < 256
    ensures ByteBits([b]) == ToBits(b, 8)
  {
    assert ByteBits([b]) == ToBits(b, 8) + ByteBits([]);
  }

  lemma FitsAfter(a: Bitstring, byte: Bitstring, z: Bitstring, cur: Bitstring)
    requires Fits(byte, cur) && |cur| <= |byte| && Fits(z, [])
    ensures Fits(a + (byte + z), a + cur)
  {
    var r := a + (byte + z);
    forall k | Within(k, |r|) ensures r[k] == if k < |a + cur| then (a + cur)[k] else 0 {
      assert Within(k - |a|, |byte|) || k < |a| || Within(k - |a| - |byte|, |z|);
    }
  }

  lemma HoldsFits(s: seq<int>, offset: nat, cur: Bitstring, bits: Bitstring)
    requires Holds(s, offset, cur, bits)
    ensures Fits(ByteBits(s), bits)
  {
    BitsAround(s, offset);
    PlacedFits(cur, 8);
    ZeroBytes(s[offset + 1..]);
    FitsAfter(ByteBits(s[..offset]), ToBits(s[offset], 8), ByteBits(s[offset + 1..]), cur);
  }

  /** Bits put into the byte being filled. */
  lemma PutWithin(s: seq<int>, offset: nat, cur: Bitstring, bits: Bitstring, d: int)
    requires Holds(s, offset, cur, bits) && 0 <= d < 32 && |cur| <= 3
    ensures var v := s[offset] + d * Pow2(3 - |cur|);
            v < 256 && var t := s[offset := v];
            if |cur| < 3 then Holds(t, offset, cur + ToBits(d, 5), bits + ToBits(d, 5))
            else if offset + 1 < |s| then Holds(t, offset + 1, [], bits + ToBits(d, 5))
            else Full(t, bits + ToBits(d, 5))
  {
    var more, v := cur + ToBits(d, 5), s[offset] + d * Pow2(3 - |cur|);
    PutValue(cur, d);
    SamePrefix(s, offset, v);
    Assoc(ByteBits(s[..offset]), cur, ToBits(d, 5));
    if |cur| == 3 { ByteDone(s[offset := v], offset, more, bits + ToBits(d, 5)); }
  }

  lemma SamePrefix(s: seq<int>, k: nat, v: int)
    requires k < |s|
    ensures s[k := v][..k] == s[..k]
  {
  }

  lemma PutValue(cur: Bitstring, d: int)
    requires 0 <= d < 32 && |cur| <= 3
    ensures 0 <= Placed(cur, 8) + d * Pow2(3 - |cur|) == Placed(cur + ToBits(d, 5), 8) < 256
    ensures |cur| == 3 ==> Placed(cur + ToBits(d, 5), 8) == Value(cur + ToBits(d, 5))
  {
    PowSmall();
    ValueOfBits(d, 5);
    PlacedMore(cur, ToBits(d, 5), 8);
    PlacedBound(cur + ToBits(d, 5), 8);
  }

  /** A byte whose bits are all there. */
  lemma ByteDone(t: seq<int>, offset: nat, byte: Bitstring, bits: Bitstring)
    requires AreBytes(t) && offset < |t| && |byte| == 8 && t[offset] == Value(byte)
      && bits == ByteBits(t[..offset]) + byte
    requires forall i {:trigger t[i]} :: offset < i < |t| ==> t[i] == 0
    ensures ByteBits(t[..offset + 1]) == bits
    ensures if offset + 1 < |t| then Holds(t, offset + 1, [], bits) else Full(t, bits)
  {
    BitsOfValue(byte);
    BitsAround(t, offset);
    PlacedBound([], 8);
    assert bits + [] == bits;
    if offset + 1 == |t| { assert t[..offset + 1] == t; }
  }

  /** A digit split between two bytes: d >> k goes to the first. */
  lemma HighPart(cur: Bitstring, d: int, k: nat)
    requires 0 <= d < 32 && 1 <= k <= 4 && |cur| == k + 3
    ensures 0 <= d / Pow2(k) && Placed(cur, 8) + d / Pow2(k) == Value(cur + ToBits(d, 5)[..5 - k]) < 256
  {
    var head := ToBits(d, 5)[..5 - k];
    PowSmall();
    Upper(d, 5, k);
    PlacedMore(cur, head, 8);
    PlacedBound(cur + head, 8);
    PlacedBound(head, 5 - k);
  }

  /** The rest, d << (8 - k) cut to a byte, goes to the second. */
  lemma LowPart(d: int, k: nat)
    requires 0 <= d < 32 && 1 <= k <= 4
    ensures d * Pow2(8 - k) % 256 == Placed(ToBits(d, 5)[5 - k..], 8)
  {
    var w := ToBits(d, 5);
    var head, low := w[..5 - k], w[5 - k..];
    PowSmall();
    ValueOfBits(d, 5);
    Cut(w, 5 - k);
    PlacedMore(head, low, 13 - k);
    PlacedBound(low, 8);
    DivSplit(Placed(w, 13 - k), Value(head), 256, Placed(low, 8));
  }

  lemma PutHigh(s: seq<int>, offset: nat, cur: Bitstring, bits: Bitstring, d: int)
    requires Holds(s, offset, cur, bits) && 0 <= d < 32 && 3 < |cur|
    ensures var k := |cur| - 3; var v := s[offset] + d / Pow2(k);
            0 <= v < 256 && var t := s[offset := v];
            if offset + 1 < |s| then Holds(t, offset + 1, [], bits + ToBits(d, 5)[..5 - k])
              else Full(t, bits + ToBits(d, 5)[..5 - k])
  {
    var k, v := |cur| - 3, s[offset] + d / Pow2(|cur| - 3);
    var head := ToBits(d, 5)[..5 - k];
    HighPart(cur, d, k);
    SamePrefix(s, offset, v);
    Assoc(ByteBits(s[..offset]), cur, head);
    ByteDone(s[offset := v], offset, cur + head, bits + head);
  }

  lemma PutLow(s: seq<int>, offset: nat, bits: Bitstring, all: Bitstring, d: int, k: nat)
    requires Holds(s, offset, [], bits) && 0 <= d < 32 && 1 <= k <= 4 && all == bits + ToBits(d, 5)[5 - k..]
    ensures s[offset] == 0 && 0 <= d * Pow2(8 - k) % 256
      && Holds(s[offset := d * Pow2(8 - k) % 256], offset, ToBits(d, 5)[5 - k..], all)
  {
    LowPart(d, k);
    PlacedBound([], 8);
    assert ByteBits(s[..offset]) + [] == ByteBits(s[..offset]);
    SamePrefix(s, offset, d * Pow2(8 - k) % 256);
  }

  lemma DigitsMore(ds: Digits32, d: int, tail: Digits32)
    requires 0 <= d < 32
    ensures DigitBits(ds + [d]) == DigitBits(ds) + ToBits(d, 5) && ds + ([d] + tail) == (ds + [d]) + tail
  {
    var e: Digits32 := [d];
    Assoc(ds, e, tail);
    OneMore(ds, d);
  }

  lemma OneMore(ds: Digits32, d: int)
    requires 0 <= d < 32
    ensures DigitBits(ds + [d]) == DigitBits(ds) + ToBits(d, 5)
  {
    assert (ds + [d])[..|ds|] == ds;
  }

  lemma {:induction false} DigitBitsAppend(ds: Digits32, es: Digits32)
    ensures DigitBits(ds + es) == DigitBits(ds) + DigitBits(es)
    decreases |es|
  {
    if es == [] {
      assert ds + es == ds;
    } else {
      var m := |es| - 1;
      assert (ds + es)[..|ds| + m] == ds + es[..m];
      DigitBitsAppend(ds, es[..m]);
    }
  }

  lemma SplitDigit(bits: Bitstring, w: Bitstring, k: nat)
    requires k <= |w|
    ensures bits + w == bits + w[..k] + w[k..]
  {
  }

  /** The part of a digit that goes into the next byte. */
  method PutRest(dst: array<int>, offset: nat, k: nat, d: int, ghost bits: Bitstring, ghost all: Bitstring)
    requires Holds(dst[..], offset, [], bits) && 1 <= k <= 4 && 0 <= d < 32 && all == bits + ToBits(d, 5)[5 - k..]
    modifies dst
    ensures Holds(dst[..], offset, ToBits(d, 5)[5 - k..], all)
  {
    ghost var s := dst[..];
    PutLow(s, offset, bits, all, d, k);
    dst[offset] := Or(dst[offset], d * Pow2(8 - k) % 256);
    assert dst[..] == s[offset := d * Pow2(8 - k) % 256];
  }

  lemma FullMore(s: seq<int>, bits: Bitstring, more: Bitstring)
    requires Full(s, bits)
    ensures Full(s, bits + more)
  {
  }

  /** What is or-ed in lies below the bits that are there. */
  lemma OrWithin(cur: Bitstring, d: int)
    requires 0 <= d < 32 && |cur| <= 3
    ensures 0 <= d * Pow2(3 - |cur|) && Or(Placed(cur, 8), d * Pow2(3 - |cur|)) == Placed(cur, 8) + d * Pow2(3 - |cur|)
  {
    PowSmall();
    PlaceBelow(d, 5, 3 - |cur|);
    Positive(d, Pow2(3 - |cur|));
    OrAdds(Value(cur), 8 - |cur|, Placed(cur, 8), d * Pow2(3 - |cur|));
  }

  lemma OrHigh(cur: Bitstring, d: int)
    requires 0 <= d < 32 && 3 < |cur| < 8
    ensures 0 <= d / Pow2(|cur| - 3) && Or(Placed(cur, 8), d / Pow2(|cur| - 3)) == Placed(cur, 8) + d / Pow2(|cur| - 3)
  {
    PowSmall();
    var k := |cur| - 3;
    Upper(d, 5, k);
    ValueBound(ToBits(d, 5)[..5 - k]);
    OrAdds(Value(cur), 8 - |cur|, Placed(cur, 8), d / Pow2(k));
  }

  /** One recognised digit goes into the array. */
  method PutDigit(dst: array<int>, offset: nat, index: nat, d: int, ghost cur: Bitstring, ghost bits: Bitstring)
      returns (offset': nat, index': nat, ghost cur': Bitstring, full: bool)
    requires Holds(dst[..], offset, cur, bits) && index == |cur| && 0 <= d < 32
    modifies dst
    ensures full <==> 8 * dst.Length <= |bits| + 5
    ensures full ==> Full(dst[..], bits + ToBits(d, 5))
    ensures !full ==> Holds(dst[..], offset', cur', bits + ToBits(d, 5)) && index' == |cur'|
  {
    ghost var s := dst[..];
    index', full := NextIndex(index), false;
    if index <= 3 {
      PutWithin(s, offset, cur, bits, d);
      OrWithin(cur, d);
      offset', cur' := offset, cur + ToBits(d, 5);
      dst[offset] := Or(dst[offset], d * Pow2(3 - index));
      assert dst[..] == s[offset := s[offset] + d * Pow2(3 - index)];
      if index' == 0 {
        offset', cur' := offset + 1, [];
        full := offset' == dst.Length;
      }
    } else {
      PutHigh(s, offset, cur, bits, d);
      OrHigh(cur, d);
      dst[offset] := Or(dst[offset], d / Pow2(index'));
      assert dst[..] == s[offset := s[offset] + d / Pow2(index')];
      offset', cur' := offset + 1, ToBits(d, 5)[5 - index'..];
      full := offset' == dst.Length;
      SplitDigit(bits, ToBits(d, 5), 5 - index');
      if full {
        FullMore(dst[..], bits + ToBits(d, 5)[..5 - index'], ToBits(d, 5)[5 - index'..]);
      } else {
        PutRest(dst, offset', index', d, bits + ToBits(d, 5)[..5 - index'], bits + ToBits(d, 5));
      }
    }
  }

  /** All that has been read, up to character i. */
  ghost predicate ReadTo(src: seq<int>, i: nat, ds: Digits32, strict: bool) {
    i <= |src| && ds + DigitsOf(src[i..]) == DigitsOf(src)
      && (strict ==> |ds| == i && ds == DigitsOf(src[..i]) && AllDigits(src[..i]))
  }

  ghost predicate AllDigits(t: seq<int>) { forall j {:trigger t[j]} :: 0 <= j < |t| ==> t[j] != 0 && Digit(t[j]) != -1 }

  lemma ReadMore(src: seq<int>, i: nat, ds: Digits32, strict: bool)
    requires ReadTo(src, i, ds, strict) && i < |src| && src[i] != 0
    ensures Digit(src[i]) == -1 && !strict ==> ReadTo(src, i + 1, ds, strict)
    ensures Digit(src[i]) != -1 ==> ReadTo(src, i + 1, ds + [Digit(src[i])], strict)
  {
    assert src[i..][1..] == src[i + 1..];
    var d := Digit(src[i]);
    if d != -1 {
      DigitsMore(ds, d, DigitsOf(src[i + 1..]));
      if strict {
        Around(src, i);
        DigitsUpTo(src, i);
      }
    }
  }

  lemma ReadAll(src: seq<int>, i: nat, ds: Digits32, strict: bool)
    requires ReadTo(src, i, ds, strict) && (i == |src| || src[i] == 0)
    ensures ds == DigitsOf(src) && (strict ==> forall k: nat, len: nat :: !Refused(src, k, len))
  {
    assert DigitsOf(src[i..]) == [];
    if strict {
      forall k: nat, len: nat ensures !Refused(src, k, len) {
        if k < i { assert src[..i][k] == src[k]; }
      }
    }
  }

  /** No character past the last that fits is looked at. */
  lemma ReadEnough(src: seq<int>, i: nat, ds: Digits32, strict: bool, len: nat)
    requires ReadTo(src, i, ds, strict) && 5 * |ds| >= 8 * len
    ensures DigitBits(DigitsOf(src)) == DigitBits(ds) + DigitBits(DigitsOf(src[i..]))
    ensures strict ==> forall k: nat :: !Refused(src, k, len)
  {
    var tail := DigitsOf(src[i..]);
    DigitBitsAppend(ds, tail);
    assert DigitBits(DigitsOf(src)) == DigitBits(ds) + DigitBits(tail);
    if strict {
      forall k: nat ensures !Refused(src, k, len) {
        if k < i { assert src[..i][k] == src[k]; }
      }
    }
  }

  lemma ReadRefused(src: seq<int>, i: nat, ds: Digits32, len: nat)
    requires ReadTo(src, i, ds, true) && i < |src| && src[i] != 0 && Digit(src[i]) == -1 && 5 * i < 8 * len
    ensures Refused(src, i, len) && forall k: nat :: Refused(src, k, len) ==> k == i
  {
    forall j | 0 <= j < i ensures src[j] != 0 && Digit(src[j]) != -1 {
      assert src[..i][j] == src[j];
    }
  }

  /** memset. */
  method Clear(dst: array<int>)
    requires dst.Length > 0
    modifies dst
    ensures Holds(dst[..], 0, [], [])
  {
    var z := 0;
    while z < dst.Length
      invariant 0 <= z <= dst.Length && forall i {:trigger dst[i]} :: 0 <= i < z ==> dst[i] == 0
    {
      dst[z] := 0;
      z := z + 1;
    }
    PlacedBound([], 8);
    assert dst[..][..0] == [];
  }

  /** Util::fromBase32 into an array that is not empty: dst gets the bits of the digits. A strict reading stops at
      the first character that is not recognised; otherwise such characters are skipped. */
  method FromBase32(src: seq<int>, dst: array<int>, strict: bool) returns (error: bool)
    requires dst.Length > 0
    modifies dst
    ensures AreBytes(dst[..])
    ensures !error ==> Fits(ByteBits(dst[..]), DigitBits(DigitsOf(src)))
    ensures error <==> strict && exists k: nat :: Refused(src, k, dst.Length)
    ensures error ==>
      forall k: nat :: Refused(src, k, dst.Length) ==> Fits(ByteBits(dst[..]), DigitBits(DigitsOf(src[..k])))
  {
    Clear(dst);
    var i, index, offset, full := 0, 0, 0, false;
    ghost var ds: Digits32, cur: Bitstring := [], [];
    assert src[0..] == src && [] + DigitsOf(src) == DigitsOf(src);
    error := false;
    while i < |src| && src[i] != 0
      invariant 0 <= i <= |src| && Holds(dst[..], offset, cur, DigitBits(ds)) && index == |cur|
      invariant ReadTo(src, i, ds, strict) && 5 * |ds| < 8 * dst.Length
      decreases |src| - i
    {
      var tmp := Digit(src[i]);
      if tmp == -1 {
        if strict {
          error := true;
          HoldsFits(dst[..], offset, cur, DigitBits(ds));
          ReadRefused(src, i, ds, dst.Length);
          return;
        }
        ReadMore(src, i, ds, strict);
        i := i + 1;
        continue;
      }
      ReadMore(src, i, ds, strict);
      OneMore(ds, tmp);
      offset, index, cur, full := PutDigit(dst, offset, index, tmp, cur, DigitBits(ds));
      ds := ds + [tmp];
      i := i + 1;
      if full {
        ReadEnough(src, i, ds, strict, dst.Length);
        FullMore(dst[..], DigitBits(ds), DigitBits(DigitsOf(src[i..])));
        return;
      }
    }
    HoldsFits(dst[..], offset, cur, DigitBits(ds));
    ReadAll(src, i, ds, strict);
  }

  /** The digits of a text one character longer. */
  lemma {:induction false} DigitsUpTo(t: seq<int>, i: nat)
    requires i < |t| && forall j {:trigger t[j]} :: 0 <= j <= i ==> t[j] != 0 && Digit(t[j]) != -1
    ensures DigitsOf(t[..i + 1]) == DigitsOf(t[..i]) + [Digit(t[i])]
    decreases i
  {
    var a := t[..i + 1];
    if i == 0 {
      assert a[1..] == [];
    } else {
      DigitsUpTo(t[1..], i - 1);
      assert a[1..] == t[1..][..i] && t[..i][1..] == t[1..][..i - 1];
    }
  }

  // ---- round trips ----

  lemma OneDigit(d: Quintet)
    ensures DigitBits([d]) == ToBits(d, 5)
  {
    assert DigitBits([d]) == DigitBits([]) + ToBits(d, 5);
  }

  lemma FitsParts(bits: Bitstring, n: nat, a: Bitstring, b: Bitstring)
    requires n <= |bits| && Fits(a, bits[..n]) && Fits(b, bits[n..]) && (|a| == n || (n == |bits| && n <= |a|))
    ensures Fits(a + b, bits)
  {
    forall k | Within(k, |a + b|) ensures (a + b)[k] == if k < |bits| then bits[k] else 0 {
      assert Within(k, |a|) || Within(k - |a|, |b|);
    }
  }

  /** The bits of the groups are the bits, followed by zeros that fill the last group. */
  lemma {:induction false} GroupsKeepBits(bits: Bitstring)
    ensures Fits(DigitBits(Groups(bits)), bits)
    decreases |bits|
  {
    if bits != [] {
      var n := if |bits| < 5 then |bits| else 5;
      var group, rest := bits[..n], bits[n..];
      PowSmall();
      PlacedBound(group, 5);
      PlacedFits(group, 5);
      var d: Quintet := Placed(group, 5);
      OneDigit(d);
      DigitBitsAppend([d], Groups(rest));
      GroupsKeepBits(rest);
      FitsParts(bits, n, ToBits(d, 5), DigitBits(Groups(rest)));
    }
  }

  lemma {:induction false} DigitsOfLetters(ds: Digits32)
    ensures DigitsOf(Letters(ds)) == ds
    decreases |ds|
  {
    if ds != [] {
      DigitsOfLetters(ds[1..]);
      LettersMore(ds, ds[0], ds[1..]);
    }
  }

  lemma {:induction false} ByteBitsInjective(s: seq<int>, t: seq<int>)
    requires AreBytes(s) && AreBytes(t) && ByteBits(s) == ByteBits(t)
    ensures s == t
    decreases |s|
  {
    if s != [] {
      PowSmall();
      ValueOfBits(s[0], 8);
      ValueOfBits(t[0], 8);
      assert ToBits(s[0], 8) == ByteBits(s)[..8] && ToBits(t[0], 8) == ByteBits(t)[..8];
      assert ByteBits(s[1..]) == ByteBits(s)[8..] && ByteBits(t[1..]) == ByteBits(t)[8..];
      ByteBitsInjective(s[1..], t[1..]);
    } else {
      assert |ByteBits(t)| == 0;
    }
  }

  /** Reading the text of b into an array of its length gives b, and no strict reading refuses it. */
  lemma TextReadsBack(b: seq<int>, read: seq<int>)
    requires AreBytes(b) && AreBytes(read) && |read| == |b|
    requires Fits(ByteBits(read), DigitBits(DigitsOf(Text(b))))
    ensures read == b && forall k: nat, n: nat :: !Refused(Text(b), k, n)
  {
    var es := TextDigits(b);
    FitsBack(ByteBits(read), DigitBits(es), ByteBits(b));
    ByteBitsInjective(read, b);
  }

  lemma FitsBack(a: Bitstring, b: Bitstring, c: Bitstring)
    requires Fits(a, b) && Fits(b, c) && |a| == |c| <= |b|
    ensures a == c
  {
    forall k | 0 <= k < |a| ensures a[k] == c[k] {
      assert Within(k, |a|) && Within(k, |b|);
    }
  }

  function Lower(c: int): int { if 'A' as int <= c <= 'Z' as int then c + 32 else c }

  function LowerAll(t: seq<int>): seq<int> { seq(|t|, i requires 0 <= i < |t| => Lower(t[i])) }

  /** Lower case reads the same, in any text. */
  lemma {:induction false} CaseDoesNotMatter(t: seq<int>)
    ensures DigitsOf(LowerAll(t)) == DigitsOf(t)
    decreases |t|
  {
    if t != [] {
      CaseDoesNotMatter(t[1..]);
      assert LowerAll(t)[1..] == LowerAll(t[1..]);
    }
  }

  lemma {:induction false} DigitBitsInjective(ds: Digits32, es: Digits32)
    requires DigitBits(ds) == DigitBits(es)
    ensures ds == es
    decreases |ds|
  {
    assert 5 * |ds| == 5 * |es|;
    if ds != [] {
      var m := |ds| - 1;
      var a, b := DigitBits(ds), DigitBits(es);
      assert a[..5 * m] == DigitBits(ds[..m]) && b[..5 * m] == DigitBits(es[..m]);
      DigitBitsInjective(ds[..m], es[..m]);
      assert a[5 * m..] == ToBits(ds[m], 5) && b[5 * m..] == ToBits(es[m], 5);
      ValueOfBits(ds[m], 5);
      ValueOfBits(es[m], 5);
      assert ds == ds[..m] + [ds[m]] && es == es[..m] + [es[m]];
    }
  }

  /** As many digits as it takes for n bytes, and no more. */
  ghost predicate RightLength(digits: nat, n: nat) { 8 * n <= 5 * digits < 8 * n + 5 }

  /** A text that is what toBase32 writes has the right length for the bytes and only zeros in its spare bits. */
  lemma WrittenIsTight(ds: Digits32, b: seq<int>)
    requires AreBytes(b) && Text(b) == Letters(ds)
    ensures RightLength(|ds|, |b|) && ZeroFrom(DigitBits(ds), 8 * |b|)
  {
    var es := TextDigits(b);
    DigitsOfLetters(ds);
    assert ds == es;
    FitsTail(DigitBits(es), ByteBits(b));
  }

  lemma FitsTail(a: Bitstring, bits: Bitstring)
    requires Fits(a, bits)
    ensures ZeroFrom(a, |bits|)
  {
    forall k | |bits| <= k < |a| ensures a[k] == 0 { assert Within(k, |a|); }
  }

  /** And every such text is what toBase32 writes for the bytes read from it. */
  lemma TightIsWritten(ds: Digits32, b: seq<int>)
    requires AreBytes(b) && Fits(ByteBits(b), DigitBits(ds)) && RightLength(|ds|, |b|)
      && ZeroFrom(DigitBits(ds), 8 * |b|)
    ensures Text(b) == Letters(ds)
  {
    GroupsKeepBits(ByteBits(b));
    GroupsAre(ds, Groups(ByteBits(b)), ByteBits(b));
  }

  lemma GroupsAre(ds: Digits32, es: Digits32, bits: Bitstring)
    requires |ds| == |es| && Fits(DigitBits(es), bits) && Fits(bits, DigitBits(ds)) && ZeroFrom(DigitBits(ds), |bits|)
      && |bits| <= 5 * |ds|
    ensures es == ds
  {
    SameBits(DigitBits(ds), DigitBits(es), bits);
    DigitBitsInjective(es, ds);
  }

  ghost predicate ZeroFrom(s: Bitstring, k: nat) { forall i {:trigger s[i]} :: k <= i < |s| ==> s[i] == 0 }

  lemma TextDigits(b: seq<int>) returns (es: Digits32)
    requires AreBytes(b)
    ensures es == DigitsOf(Text(b)) && 8 * |b| <= 5 * |es| < 8 * |b| + 5 && Fits(DigitBits(es), ByteBits(b))
  {
    es := Groups(ByteBits(b));
    DigitsOfLetters(es);
    GroupsKeepBits(ByteBits(b));
  }

  lemma SameBits(a: Bitstring, b: Bitstring, bits: Bitstring)
    requires |bits| <= |b| == |a| && Fits(bits, a) && Fits(b, bits) && ZeroFrom(a, |bits|)
    ensures a == b
  {
    forall k | 0 <= k < |a| ensures a[k] == b[k] {
      assert Within(k, |b|) && (Within(k, |bits|) || k >= |bits|);
    }
  }

  /** Every non-empty byte string comes back from its text, strictly read. */
  method WriteAndRead(b: seq<int>) returns (read: seq<int>, error: bool)
    requires AreBytes(b) && b != []
    ensures !error && read == b
  {
    var text := ToBase32(b, []);
    assert [] + Text(b) == Text(b);
    var dst := new int[|b|];
    error := FromBase32(text, dst, true);
    read := dst[..];
    ghost var es := TextDigits(b);
    assert forall k: nat :: !Refused(text, k, |b|);
    TextReadsBack(b, read);
  }
}
