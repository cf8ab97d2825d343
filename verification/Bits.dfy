/** Bit strings, most significant bit first. */
module Bits {
  type Bit = b: int | 0 <= b < 2
  type Bitstring = seq<Bit>

  /** The most symbols a code is for. */
  const MAX_ALPHA := 258

  function Pow2(k: nat): (r: nat)
    ensures r >= 1
  {
    if k == 0 then 1 else 2 * Pow2(k - 1)
  }

  /** The low n bits of v. */
  function ToBits(v: nat, n: nat): (r: Bitstring)
    ensures |r| == n
  {
    if n == 0 then [] else ToBits(v / 2, n - 1) + [v % 2]
  }

  /** The number a bit string stands for. */
  function Value(s: Bitstring): nat {
    if s == [] then 0 else 2 * Value(s[..|s| - 1]) + s[|s| - 1]
  }

  lemma {:induction false} ValueBound(s: Bitstring)
    ensures Value(s) < Pow2(|s|)
    decreases |s|
  {
    if s != [] { ValueBound(s[..|s| - 1]); }
  }

  /** v >> k. */
  function Shr(v: nat, k: nat): nat {
    if k == 0 then v else Shr(v, k - 1) / 2
  }

  /** a | b. */
  function Or(a: nat, b: nat): nat
    decreases a + b
  {
    if a == 0 then b else if b == 0 then a else 2 * Or(a / 2, b / 2) + if a % 2 == 1 || b % 2 == 1 then 1 else 0
  }

  /** Bits or-ed in below the lowest one of a add up with it. */
  lemma {:induction false} OrAdds(q: nat, k: nat, a: nat, b: nat)
    requires a == q * Pow2(k) && b < Pow2(k)
    ensures Or(a, b) == a + b
    decreases k
  {
    if k > 0 {
      Times(q, Pow2(k - 1));
      Double(0, 0, q * Pow2(k - 1), 0);
      assert a == 2 * (q * Pow2(k - 1));
      assert a / 2 == q * Pow2(k - 1);
      OrAdds(q, k - 1, a / 2, b / 2);
    }
  }

  lemma {:induction false} ValueOfBits(v: nat, n: nat)
    requires v < Pow2(n)
    ensures Value(ToBits(v, n)) == v
  {
    if n > 0 {
      ValueOfBits(v / 2, n - 1);
      assert ToBits(v, n)[..n - 1] == ToBits(v / 2, n - 1);
    }
  }

  lemma {:induction false} BitsOfValue(s: Bitstring)
    ensures ToBits(Value(s), |s|) == s
    decreases |s|
  {
    if s != [] {
      var m := |s| - 1;
      BitsOfValue(s[..m]);
      assert s == s[..m] + [s[m]];
    }
  }

  lemma {:induction false} ShrHalf(v: nat, k: nat)
    ensures Shr(v / 2, k) == Shr(v, k + 1) && Shr(v, k + 1) == Shr(v, k) / 2
    decreases k
  {
    if k > 0 { ShrHalf(v, k - 1); }
  }

  /** A prefix of the bits of v is the bits of v shifted right. */
  lemma {:induction false} PrefixBits(v: nat, n: nat, k: nat)
    requires k <= n
    ensures ToBits(v, n)[..k] == ToBits(Shr(v, n - k), k)
    decreases n
  {
    if k < n {
      assert ToBits(v, n)[..k] == ToBits(v / 2, n - 1)[..k];
      PrefixBits(v / 2, n - 1, k);
      ShrHalf(v, n - 1 - k);
    }
  }

  lemma {:induction false} ShrBound(v: nat, n: nat, k: nat)
    requires k <= n && v < Pow2(n)
    ensures Shr(v, n - k) < Pow2(k)
    decreases n - k
  {
    if k < n { ShrBound(v, n, k + 1); }
  }

  lemma ValuePrefix(v: nat, n: nat, k: nat)
    requires k <= n && v < Pow2(n)
    ensures Value(ToBits(v, n)[..k]) == Shr(v, n - k)
  {
    PrefixBits(v, n, k);
    ShrBound(v, n, k);
    ValueOfBits(Shr(v, n - k), k);
  }

  lemma ValueMore(s: Bitstring, b: Bit)
    ensures Value(s + [b]) == 2 * Value(s) + b
  {
    assert (s + [b])[..|s|] == s;
  }

  lemma {:induction false} ValueAppend(s: Bitstring, t: Bitstring)
    ensures Value(s + t) == Value(s) * Pow2(|t|) + Value(t)
    decreases |t|
  {
    if t == [] {
      assert s + t == s;
    } else {
      var m := |t| - 1;
      var u, b := t[..m], t[m];
      ValueAppend(s, u);
      assert s + t == (s + u) + [b];
      ValueMore(s + u, b);
      Double(Value(s), Pow2(m), Value(u), b);
    }
  }

  lemma Double(x: int, y: int, u: int, b: int)
    ensures 2 * (x * y + u) + b == x * (2 * y) + (2 * u + b)
  {
  }

  lemma {:induction false} PowAdd(i: nat, j: nat)
    ensures Pow2(i + j) == Pow2(i) * Pow2(j)
  {
    if i > 0 {
      PowAdd(i - 1, j);
      Times(Pow2(i - 1), Pow2(j));
    }
  }

  lemma Times(x: int, y: int)
    ensures 2 * (x * y) == (2 * x) * y
  {
  }

  lemma Grows(x: int, y: int, p: int)
    requires x < y && p > 0
    ensures x * p < y * p
  {
  }

  lemma CancelLe(x: int, y: int, p: int)
    requires x * p <= y * p && p > 0
    ensures x <= y
  {
    if y < x { Grows(y, x, p); }
  }

  /** The bytes of a stream as bits. */
  function ByteBits(s: seq<int>): (r: Bitstring)
    requires forall i {:trigger s[i]} :: 0 <= i < |s| ==> 0 <= s[i] < 256
    ensures |r| == 8 * |s|
  {
    if s == [] then [] else ToBits(s[0], 8) + ByteBits(s[1..])
  }

  lemma {:induction false} ByteBitsAppend(s: seq<int>, t: seq<int>)
    requires forall i {:trigger s[i]} :: 0 <= i < |s| ==> 0 <= s[i] < 256
    requires forall i {:trigger t[i]} :: 0 <= i < |t| ==> 0 <= t[i] < 256
    ensures ByteBits(s + t) == ByteBits(s) + ByteBits(t)
    decreases |s|
  {
    if s == [] {
      assert s + t == t;
    } else {
      assert (s + t)[1..] == s[1..] + t;
      ByteBitsAppend(s[1..], t);
    }
  }
}
