/** The CRC as both sides use it. */
module Crcs {
  /** The CRC, about which nothing is assumed: both sides fold it over the same bytes. */
  datatype Crc = Crc(init: int, step: (int, int) -> int, last: int -> int, combine: (int, int) -> int)

  function Fold(k: Crc, c: int, s: seq<int>): int
    decreases |s|
  {
    if s == [] then c else Fold(k, (k.step)(c, s[0]), s[1..])
  }

  lemma {:induction false} FoldAppend(k: Crc, c: int, s: seq<int>, t: seq<int>)
    ensures Fold(k, c, s + t) == Fold(k, Fold(k, c, s), t)
    decreases |s|
  {
    if s == [] {
      assert s + t == t;
    } else {
      assert (s + t)[1..] == s[1..] + t;
      FoldAppend(k, (k.step)(c, s[0]), s[1..], t);
    }
  }
}
