/** The bits BZ2_compressBlock writes for a block, and that BZ2_decompress reads exactly those back. */
module BlockFormat {
  import opened MtfTable
  import opened Mtf
  import opened MtfEncode
  import opened Bits
  import opened BitIo
  import opened Canonical
  import opened DecodeMachine

  // ---- what is written ----

  function Bit01(b: bool): Bitstring { if b then [1] else [0] }

  /** Whether row i of the mapping table has a byte in use. */
  predicate RowUsed(inUse: seq<bool>, i: nat)
    requires |inUse| == 256 && i < 16
  {
    exists x :: 16 * i <= x < 16 * i + 16 && inUse[x]
  }

  function RowFlags(inUse: seq<bool>, i: nat): (r: Bitstring)
    requires |inUse| == 256 && i <= 16
    decreases 16 - i
  {
    if i == 16 then [] else Bit01(RowUsed(inUse, i)) + RowFlags(inUse, i + 1)
  }

  function RowBits(inUse: seq<bool>, i: nat, j: nat): (r: Bitstring)
    requires |inUse| == 256 && i < 16 && j <= 16
    decreases 16 - j
  {
    if j == 16 then [] else Bit01(inUse[16 * i + j]) + RowBits(inUse, i, j + 1)
  }

  function MapBits(inUse: seq<bool>, i: nat): (r: Bitstring)
    requires |inUse| == 256 && i <= 16
    decreases 16 - i
  {
    if i == 16 then [] else (if RowUsed(inUse, i) then RowBits(inUse, i, 0) else []) + MapBits(inUse, i + 1)
  }

  /** n ones and a zero. */
  function Unary(n: nat): (r: Bitstring) {
    if n == 0 then [0] else [1] + Unary(n - 1)
  }

  /** The selectors, move-to-front coded. */
  function SelectorMtf(sel: seq<int>, pos: seq<int>): (r: seq<int>)
    requires forall k {:trigger sel[k]} :: 0 <= k < |sel| ==> sel[k] in pos
    ensures |r| == |sel| && forall k {:trigger r[k]} :: 0 <= k < |r| ==> 0 <= r[k] < |pos|
    decreases |sel|
  {
    if sel == [] then []
    else
      var j := Find(pos, sel[0]);
      assert forall v {:trigger v in pos} :: v in pos ==> v in MoveToFront(pos, j) by { MoveKeeps(pos, j); }
      [j] + SelectorMtf(sel[1..], MoveToFront(pos, j))
  }

  lemma MoveKeeps(pos: seq<int>, j: nat)
    requires j < |pos|
    ensures forall v {:trigger v in pos} :: v in pos ==> v in MoveToFront(pos, j)
  {
    var r := MoveToFront(pos, j);
    forall v {:trigger v in pos} | v in pos ensures v in r {
      var k :| 0 <= k < |pos| && pos[k] == v;
      assert r[if k < j then k + 1 else if k == j then 0 else k] == v;
    }
  }

  function UnaryAll(mtf: seq<int>): (r: Bitstring)
    requires forall k {:trigger mtf[k]} :: 0 <= k < |mtf| ==> mtf[k] >= 0
  {
    if mtf == [] then [] else Unary(mtf[0]) + UnaryAll(mtf[1..])
  }

  /** From the current length to the next: 10 goes up, 11 goes down, 0 stays. */
  function Delta(curr: nat, next: nat): (r: Bitstring)
    decreases if curr < next then next - curr else curr - next
  {
    if curr < next then [1, 0] + Delta(curr + 1, next) else if curr > next then [1, 1] + Delta(curr - 1, next) else [0]
  }

  function Deltas(curr: nat, len: seq<nat>): (r: Bitstring)
    decreases |len|
  {
    if len == [] then [] else Delta(curr, len[0]) + Deltas(len[0], len[1..])
  }

  function LengthBits(lens: seq<seq<nat>>): (r: Bitstring)
    requires forall t {:trigger lens[t]} :: 0 <= t < |lens| ==> lens[t] != []
  {
    if lens == [] then [] else ToBits(lens[0][0], 5) + Deltas(lens[0][0], lens[0]) + LengthBits(lens[1..])
  }

  /** The code of one symbol. */
  function CodeBits(len: seq<nat>, sym: int): (r: Bitstring)
    requires 0 <= sym < |len|
  {
    ToBits(Code(len, sym), len[sym])
  }

  /** The codes of symbols k onward. */
  function SymBits(lens: seq<seq<nat>>, sel: seq<int>, syms: seq<int>, k: nat): (r: Bitstring)
    requires k <= |syms|
    decreases |syms| - k
  {
    if k == |syms| then []
    else
      (if k / G_SIZE < |sel| && 0 <= sel[k / G_SIZE] < |lens| && 0 <= syms[k] < |lens[sel[k / G_SIZE]]|
       then CodeBits(lens[sel[k / G_SIZE]], syms[k]) else [])
      + SymBits(lens, sel, syms, k + 1)
  }

  // ---- running the machine over it ----

  ghost function From(s: Step, rest: Bitstring): End {
    match s
    case Goto(d) => Go(d, rest)
    case Stop(ret, d) => Returned(ret, d, rest)
  }

  /** From s the machine comes to t by reading bits up to rest. It is stated for any function that runs
      the machine, so that proofs which only chain steps never look into it. */
  ghost predicate Comes(s: Step, bits: Bitstring, t: Step, rest: Bitstring) {
    forall f: (Step, Bitstring) -> End {:trigger Machine(f)} :: Machine(f) ==> f(s, bits) == f(t, rest)
  }

  ghost predicate Machine(f: (Step, Bitstring) -> End) {
    forall u {:trigger Open(f, u)} :: Open(f, u) ==> forall s, b {:trigger f(s, b)} :: f(s, b) == From(s, b)
  }

  ghost predicate Open(f: (Step, Bitstring) -> End, u: int) { true }

  lemma ComesOpens(s: Step, bits: Bitstring, t: Step, rest: Bitstring)
    ensures Comes(s, bits, t, rest) <==> From(s, bits) == From(t, rest)
  {
    var f := (s: Step, b: Bitstring) => From(s, b);
    assert Machine(f);
    if From(s, bits) == From(t, rest) {
      forall f: (Step, Bitstring) -> End {:trigger Machine(f)} | Machine(f)
        ensures f(s, bits) == f(t, rest)
      {
        assert Open(f, 0);
      }
    }
  }

  lemma Then(s: Step, a: Bitstring, t: Step, b: Bitstring, u: Step, c: Bitstring)
    requires Comes(s, a, t, b) && Comes(t, b, u, c)
    ensures Comes(s, a, u, c)
  {
  }

  lemma Stays(s: Step, bits: Bitstring)
    ensures Comes(s, bits, s, bits)
  {
  }

  /** One read of a value that was written. */
  lemma Reads(d: D, v: nat, n: nat, rest: Bitstring)
    requires n == Need(d) && v < Pow2(n)
    ensures Comes(Goto(d), ToBits(v, n) + rest, Next(d, v), rest)
  {
    var bits := ToBits(v, n) + rest;
    assert bits[..n] == ToBits(v, n) && bits[n..] == rest;
    ValueOfBits(v, n);
    ComesOpens(Goto(d), bits, Next(d, v), rest);
  }

  lemma ReadsBit(d: D, v: Bit, rest: Bitstring)
    requires Need(d) == 1
    ensures Comes(Goto(d), [v] + rest, Next(d, v), rest)
  {
    assert Pow2(1) == 2;
    assert ToBits(v, 1) == [v] by { assert ToBits(v / 2, 0) == []; }
    Reads(d, v, 1, rest);
  }

  // ---- the mapping table ----

  /** inUse16 as read up to row i. */
  ghost predicate Flags(inUse16: seq<bool>, inUse: seq<bool>, i: int) {
    |inUse16| == 16 && |inUse| == 256 && 0 <= i <= 16 && forall k {:trigger inUse16[k]} :: 0 <= k < i ==>
      inUse16[k] == RowUsed(inUse, k)
  }

  lemma ReadFlags(d: D, inUse: seq<bool>, rest: Bitstring) returns (flags: seq<bool>)
    requires d.at == Mapping1 && 0 <= d.i < 16 && Flags(d.inUse16, inUse, d.i)
    ensures Flags(flags, inUse, 16)
    ensures Comes(Goto(d), RowFlags(inUse, d.i) + rest,
      FindRow(d.(inUse16 := flags, inUse := seq(256, _ => false), i := 0)), rest)
  {
    var most := MostFlags(d, inUse, rest);
    var e, b := d.(inUse16 := most, i := 15), RowUsed(inUse, 15);
    flags := most[15 := b];
    FlagSplit(inUse, 15, rest);
    FlagRead(e, b, rest);
  }

  /** All rows but the last. */
  lemma {:induction false} MostFlags(d: D, inUse: seq<bool>, rest: Bitstring) returns (flags: seq<bool>)
    requires d.at == Mapping1 && 0 <= d.i < 16 && Flags(d.inUse16, inUse, d.i)
    ensures Flags(flags, inUse, 15)
    ensures Comes(Goto(d), RowFlags(inUse, d.i) + rest, Goto(d.(inUse16 := flags, i := 15)), RowFlags(inUse, 15) + rest)
    decreases 16 - d.i
  {
    flags := d.inUse16;
    if d.i < 15 {
      var b := RowUsed(inUse, d.i);
      FlagSplit(inUse, d.i, rest);
      FlagRead(d, b, RowFlags(inUse, d.i + 1) + rest);
      flags := MostFlags(d.(inUse16 := flags[d.i := b], i := d.i + 1), inUse, rest);
    } else {
      Stays(Goto(d), RowFlags(inUse, 15) + rest);
    }
  }

  lemma FlagSplit(inUse: seq<bool>, i: nat, rest: Bitstring)
    requires |inUse| == 256 && i < 16
    ensures RowFlags(inUse, i) + rest == Bit01(RowUsed(inUse, i)) + (RowFlags(inUse, i + 1) + rest)
    ensures i == 15 ==> RowFlags(inUse, i + 1) + rest == rest
  {
  }

  lemma FlagRead(d: D, b: bool, rest: Bitstring)
    requires d.at == Mapping1 && 0 <= d.i < 16 && |d.inUse16| == 16
    ensures var flags := d.inUse16[d.i := b];
            Comes(Goto(d), Bit01(b) + rest,
              if d.i < 15 then Goto(d.(inUse16 := flags, i := d.i + 1))
                else FindRow(d.(inUse16 := flags, inUse := seq(256, _ => false), i := 0)), rest)
  {
    ReadsBit(d, if b then 1 else 0, rest);
  }

  /** The bytes read so far: those before k. */
  ghost function Got(inUse: seq<bool>, k: int): (r: seq<bool>)
    ensures |r| == |inUse|
  {
    seq(|inUse|, x requires 0 <= x < |inUse| => inUse[x] && x < k)
  }

  /** The machine at column j of row i. */
  ghost function AtByte(d: D, inUse: seq<bool>, i: int, j: int): D {
    d.(at := Mapping2, inUse := Got(inUse, 16 * i + j), i := i, j := j)
  }

  lemma RowRead(d: D, inUse: seq<bool>, i: int, j: int, more: Bitstring)
    requires 0 <= i < 16 && 0 <= j < 15 && |inUse| == 256
    ensures Comes(Goto(AtByte(d, inUse, i, j)), Bit01(inUse[16 * i + j]) + more, Goto(AtByte(d, inUse, i, j + 1)), more)
  {
    GotNext(inUse, 16 * i + j);
    ReadsBit(AtByte(d, inUse, i, j), if inUse[16 * i + j] then 1 else 0, more);
  }

  lemma RowLast(d: D, inUse: seq<bool>, i: int, more: Bitstring)
    requires 0 <= i < 16 && |inUse| == 256
    ensures Comes(Goto(AtByte(d, inUse, i, 15)), Bit01(inUse[16 * i + 15]) + more,
      FindRow(d.(at := Mapping2, inUse := Got(inUse, 16 * i + 16), i := i + 1, j := 16)), more)
  {
    var v := if inUse[16 * i + 15] then 1 else 0;
    ByteNext(d, inUse, i, v);
    ReadsBit(AtByte(d, inUse, i, 15), v, more);
  }

  lemma GotNext(inUse: seq<bool>, x: nat)
    requires x < |inUse|
    ensures Got(inUse, x + 1) == if inUse[x] then Got(inUse, x)[x := true] else Got(inUse, x)
  {
  }

  lemma ByteNext(d: D, inUse: seq<bool>, i: int, v: Bit)
    requires 0 <= i < 16 && |inUse| == 256 && v == if inUse[16 * i + 15] then 1 else 0
    ensures Next(AtByte(d, inUse, i, 15), v) ==
      FindRow(d.(at := Mapping2, inUse := Got(inUse, 16 * i + 16), i := i + 1, j := 16))
  {
    RowEnds(d, inUse, i, v);
    NextAtByte(AtByte(d, inUse, i, 15), v);
  }

  lemma NextAtByte(e: D, v: nat)
    requires e.at == Mapping2
    ensures Next(e, v) == NextByte(e, v)
  {
  }

  lemma RowEnds(d: D, inUse: seq<bool>, i: int, v: Bit)
    requires 0 <= i < 16 && |inUse| == 256 && v == if inUse[16 * i + 15] then 1 else 0
    ensures NextByte(AtByte(d, inUse, i, 15), v) ==
      FindRow(d.(at := Mapping2, inUse := Got(inUse, 16 * i + 16), i := i + 1, j := 16))
  {
    GotNext(inUse, 16 * i + 15);
  }

  lemma RowSplit(inUse: seq<bool>, i: nat, j: nat, rest: Bitstring)
    requires i < 16 && j < 16 && |inUse| == 256
    ensures RowBits(inUse, i, j) + rest == Bit01(inUse[16 * i + j]) + (RowBits(inUse, i, j + 1) + rest)
    ensures j == 15 ==> RowBits(inUse, i, j + 1) + rest == rest
  {
  }

  lemma {:induction false} ReadRow(d: D, inUse: seq<bool>, i: int, j: int, rest: Bitstring, t: Step)
    requires 0 <= i < 16 && 0 <= j < 16 && |inUse| == 256
    requires Comes(Goto(AtByte(d, inUse, i, 15)), Bit01(inUse[16 * i + 15]) + rest, t, rest)
    ensures Comes(Goto(AtByte(d, inUse, i, j)), RowBits(inUse, i, j) + rest, t, rest)
    decreases 16 - j
  {
    RowSplit(inUse, i, j, rest);
    if j < 15 {
      RowRead(d, inUse, i, j, RowBits(inUse, i, j + 1) + rest);
      ReadRow(d, inUse, i, j + 1, rest, t);
    }
  }

  lemma MapSplit(inUse: seq<bool>, i: nat, rest: Bitstring)
    requires |inUse| == 256 && i < 16
    ensures MapBits(inUse, i) + rest ==
      if RowUsed(inUse, i) then RowBits(inUse, i, 0) + (MapBits(inUse, i + 1) + rest)
      else MapBits(inUse, i + 1) + rest
  {
  }

  lemma RowSame(inUse: seq<bool>, i: nat)
    requires i < 16 && |inUse| == 256 && !RowUsed(inUse, i)
    ensures Got(inUse, 16 * i) == Got(inUse, 16 * i + 16)
  {
  }

  /** The machine looking for row i or a later one. */
  ghost function AtRow(d: D, inUse: seq<bool>, flags: seq<bool>, i: int): D {
    d.(at := Mapping2, inUse16 := flags, inUse := Got(inUse, 16 * i), i := i, j := 16)
  }

  lemma FindHere(d: D, inUse: seq<bool>, flags: seq<bool>, i: int)
    requires 0 <= i < 16 && Flags(flags, inUse, 16)
    ensures FindRow(AtRow(d, inUse, flags, i)) ==
      if RowUsed(inUse, i) then Goto(AtByte(AtRow(d, inUse, flags, i), inUse, i, 0))
        else FindRow(AtRow(d, inUse, flags, i + 1))
  {
    assert flags[i] == RowUsed(inUse, i);
    if !RowUsed(inUse, i) { RowSame(inUse, i); }
  }

  lemma RowFound(d: D, inUse: seq<bool>, flags: seq<bool>, i: int, rest: Bitstring)
    requires 0 <= i < 16 && Flags(flags, inUse, 16)
    ensures Comes(FindRow(AtRow(d, inUse, flags, i)), MapBits(inUse, i) + rest, FindRow(AtRow(d, inUse, flags, i + 1)),
      MapBits(inUse, i + 1) + rest)
  {
    FindHere(d, inUse, flags, i);
    MapSplit(inUse, i, rest);
    if RowUsed(inUse, i) {
      RowThrough(d, inUse, flags, i, MapBits(inUse, i + 1) + rest);
    } else {
      Stays(FindRow(AtRow(d, inUse, flags, i + 1)), MapBits(inUse, i + 1) + rest);
    }
  }

  lemma RowThrough(d: D, inUse: seq<bool>, flags: seq<bool>, i: int, more: Bitstring)
    requires 0 <= i < 16 && |inUse| == 256
    ensures Comes(Goto(AtByte(AtRow(d, inUse, flags, i), inUse, i, 0)), RowBits(inUse, i, 0) + more,
      FindRow(AtRow(d, inUse, flags, i + 1)), more)
  {
    var e := AtRow(d, inUse, flags, i);
    RowLast(e, inUse, i, more);
    ReadRow(e, inUse, i, 0, more, FindRow(AtRow(d, inUse, flags, i + 1)));
  }

  lemma {:induction false} ReadRows(d: D, inUse: seq<bool>, flags: seq<bool>, i: int, rest: Bitstring)
    requires 0 <= i <= 16 && Flags(flags, inUse, 16)
    ensures Comes(FindRow(AtRow(d, inUse, flags, i)), MapBits(inUse, i) + rest, FindRow(AtRow(d, inUse, flags, 16)),
      rest)
    decreases 16 - i
  {
    var e, bits := AtRow(d, inUse, flags, i), MapBits(inUse, i) + rest;
    if i == 16 {
      assert bits == rest;
      Stays(FindRow(e), rest);
    } else {
      RowFound(d, inUse, flags, i, rest);
      ReadRows(d, inUse, flags, i + 1, rest);
      Then(FindRow(e), bits, FindRow(AtRow(d, inUse, flags, i + 1)), MapBits(inUse, i + 1) + rest,
        FindRow(AtRow(d, inUse, flags, 16)), rest);
    }
  }

  // ---- the selectors ----

  /** Decoding the coded selectors gives them back. */
  lemma {:induction false} SelectorsInvert(sel: seq<int>, pos: seq<int>)
    requires forall k {:trigger sel[k]} :: 0 <= k < |sel| ==> sel[k] in pos
    ensures Selectors(SelectorMtf(sel, pos), pos) == sel
    decreases |sel|
  {
    if sel != [] {
      var j := Find(pos, sel[0]);
      MoveKeeps(pos, j);
      SelectorsInvert(sel[1..], MoveToFront(pos, j));
      var mtf := SelectorMtf(sel, pos);
      assert mtf[0] == j && mtf[1..] == SelectorMtf(sel[1..], MoveToFront(pos, j));
      assert sel == [sel[0]] + sel[1..];
    }
  }

  /** The machine at selector i, with j ones read. */
  ghost function AtSel(d: D, i: int, j: int, mtf: seq<int>): D {
    d.(at := Selector3, i := i, j := j, s := d.s.(mtf := mtf))
  }

  lemma UnarySplit(n: nat, rest: Bitstring)
    ensures Unary(n) + rest == (if n == 0 then [0] + rest else [1] + (Unary(n - 1) + rest))
  {
  }

  lemma OneRead(d: D, i: int, j: int, mtf: seq<int>, rest: Bitstring)
    requires j + 1 < d.s.nGroups
    ensures Comes(Goto(AtSel(d, i, j, mtf)), [1] + rest, Goto(AtSel(d, i, j + 1, mtf)), rest)
  {
    ReadsBit(AtSel(d, i, j, mtf), 1, rest);
  }

  lemma {:induction false} ReadUnary(d: D, i: int, j: int, n: nat, mtf: seq<int>, rest: Bitstring, t: Step)
    requires 0 <= j <= n < d.s.nGroups && Comes(Goto(AtSel(d, i, n, mtf)), [0] + rest, t, rest)
    ensures Comes(Goto(AtSel(d, i, j, mtf)), Unary(n - j) + rest, t, rest)
    decreases n - j
  {
    UnarySplit(n - j, rest);
    if j < n {
      OneRead(d, i, j, mtf, Unary(n - j - 1) + rest);
      ReadUnary(d, i, j + 1, n, mtf, rest, t);
    }
  }

  lemma ZeroRead(d: D, i: int, j: int, mtf: seq<int>, rest: Bitstring)
    requires 0 <= i < d.s.nSelectors <= MAX_SELECTORS
    ensures var e := AtSel(d, i + 1, 0, mtf + [j]);
            Comes(Goto(AtSel(d, i, j, mtf)), [0] + rest, if i + 1 < d.s.nSelectors then Goto(e) else SelectorsDone(e),
              rest)
  {
    ReadsBit(AtSel(d, i, j, mtf), 0, rest);
  }

  lemma UnaryAllSplit(mtf: seq<int>, i: nat, rest: Bitstring)
    requires i < |mtf| && forall k {:trigger mtf[k]} :: 0 <= k < |mtf| ==> mtf[k] >= 0
    ensures UnaryAll(mtf[i..]) + rest == Unary(mtf[i]) + (UnaryAll(mtf[i + 1..]) + rest)
    ensures i + 1 == |mtf| ==> UnaryAll(mtf[i + 1..]) + rest == rest
    ensures mtf[..i] + [mtf[i]] == mtf[..i + 1]
  {
    assert mtf[i..][1..] == mtf[i + 1..];
  }

  lemma {:induction false} ReadSelectors(d: D, mtf: seq<int>, i: nat, rest: Bitstring)
    requires i < |mtf| == d.s.nSelectors <= MAX_SELECTORS
    requires forall k {:trigger mtf[k]} :: 0 <= k < |mtf| ==> 0 <= mtf[k] < d.s.nGroups
    ensures Comes(Goto(AtSel(d, i, 0, mtf[..i])), UnaryAll(mtf[i..]) + rest, SelectorsDone(AtSel(d, |mtf|, 0, mtf)),
      rest)
    decreases |mtf| - i
  {
    var more := UnaryAll(mtf[i + 1..]) + rest;
    UnaryAllSplit(mtf, i, rest);
    ZeroRead(d, i, mtf[i], mtf[..i], more);
    if i + 1 < |mtf| {
      ReadUnary(d, i, 0, mtf[i], mtf[..i], more, Goto(AtSel(d, i + 1, 0, mtf[..i + 1])));
      ReadSelectors(d, mtf, i + 1, rest);
    } else {
      assert mtf[..i + 1] == mtf;
      ReadUnary(d, i, 0, mtf[i], mtf[..i], more, SelectorsDone(AtSel(d, |mtf|, 0, mtf)));
    }
  }

  // ---- the code lengths ----

  /** The machine at symbol i of a table, with the lengths before it. */
  ghost function AtLen(d: D, i: int, curr: int, len: seq<nat>): D {
    d.(at := Coding2, i := i, c := d.c.(curr := curr, len := len))
  }

  lemma DeltaSplit(curr: nat, next: nat, rest: Bitstring)
    ensures Delta(curr, next) + rest ==
      if curr < next then [1] + ([0] + (Delta(curr + 1, next) + rest))
      else if curr > next then [1] + ([1] + (Delta(curr - 1, next) + rest)) else [0] + rest
  {
  }

  lemma DeltaRead(d: D, i: int, curr: int, up: Bit, len: seq<nat>, rest: Bitstring)
    requires var c := if up == 0 then curr + 1 else curr - 1; 1 <= c <= LONGEST
    ensures Comes(Goto(AtLen(d, i, curr, len)), [1] + ([up] + rest),
      Goto(AtLen(d, i, if up == 0 then curr + 1 else curr - 1, len)), rest)
  {
    var e := AtLen(d, i, curr, len);
    ReadsBit(e, 1, [up] + rest);
    ReadsBit(e.(at := Coding3), up, rest);
  }

  lemma {:induction false} ReadDelta(d: D, i: int, curr: nat, next: nat, len: seq<nat>, rest: Bitstring)
    requires 1 <= curr <= LONGEST && 1 <= next <= LONGEST
    ensures Comes(Goto(AtLen(d, i, curr, len)), Delta(curr, next) + rest, LengthDone(AtLen(d, i, next, len)), rest)
    decreases if curr < next then next - curr else curr - next
  {
    DeltaSplit(curr, next, rest);
    if curr == next {
      ReadsBit(AtLen(d, i, curr, len), 0, rest);
    } else {
      var c := if curr < next then curr + 1 else curr - 1;
      DeltaRead(d, i, curr, if curr < next then 0 else 1, len, Delta(c, next) + rest);
      ReadDelta(d, i, c, next, len, rest);
    }
  }

  lemma DeltasSplit(curr: nat, len: seq<nat>, i: nat, rest: Bitstring)
    requires i < |len|
    ensures Deltas(curr, len[i..]) + rest == Delta(curr, len[i]) + (Deltas(len[i], len[i + 1..]) + rest)
    ensures i + 1 == |len| ==> Deltas(len[i], len[i + 1..]) + rest == rest
    ensures len[..i] + [len[i]] == len[..i + 1]
  {
    assert len[i..][1..] == len[i + 1..];
  }

  /** All lengths of one table. */
  ghost predicate GoodLengths(len: seq<nat>, a: nat) {
    |len| == a <= MAX_ALPHA && forall i {:trigger len[i]} :: 0 <= i < a ==> 1 <= len[i] <= LONGEST
  }

  /** What follows when the last length of a table is known. */
  ghost function TableDone(d: D, len: seq<nat>): Step
    requires len != []
  {
    var e := d.(at := Coding2, i := |len|,
      c := d.c.(curr := len[|len| - 1], len := len, t := d.c.t + 1, all := d.c.all + [len]));
    if e.c.t < e.s.nGroups then Goto(e.(at := Coding1)) else TablesDone(e)
  }

  lemma LengthNext(d: D, i: nat, len: seq<nat>)
    requires GoodLengths(len, NInUse(d) + 2) && i < |len|
    ensures LengthDone(AtLen(d, i, len[i], len[..i])) ==
      if i + 1 < |len| then Goto(AtLen(d, i + 1, len[i], len[..i + 1])) else TableDone(d, len)
  {
    assert len[..i] + [len[i]] == len[..i + 1];
    if i + 1 == |len| { assert len[..i + 1] == len; }
  }

  lemma {:induction false} ReadDeltas(d: D, i: nat, curr: nat, len: seq<nat>, rest: Bitstring)
    requires GoodLengths(len, NInUse(d) + 2) && i < |len| && 1 <= curr <= LONGEST
    ensures Comes(Goto(AtLen(d, i, curr, len[..i])), Deltas(curr, len[i..]) + rest, TableDone(d, len), rest)
    decreases |len| - i
  {
    DeltasSplit(curr, len, i, rest);
    ReadDelta(d, i, curr, len[i], len[..i], Deltas(len[i], len[i + 1..]) + rest);
    LengthNext(d, i, len);
    if i + 1 < |len| { ReadDeltas(d, i + 1, len[i], len, rest); }
  }

  /** One table: its first length and the changes from symbol to symbol. */
  lemma ReadTable(d: D, len: seq<nat>, rest: Bitstring)
    requires d.at == Coding1 && GoodLengths(len, NInUse(d) + 2)
    ensures len != [] && Comes(Goto(d), ToBits(len[0], 5) + (Deltas(len[0], len) + rest), TableDone(d, len), rest)
  {
    var more := Deltas(len[0], len) + rest;
    assert Pow2(5) == 32;
    Reads(d, len[0], 5, more);
    assert len[0..] == len && len[..0] == [];
    ReadDeltas(d, 0, len[0], len, rest);
  }

  lemma LengthBitsSplit(lens: seq<seq<nat>>, t: nat, rest: Bitstring)
    requires t < |lens| && forall t {:trigger lens[t]} :: 0 <= t < |lens| ==> lens[t] != []
    ensures LengthBits(lens[t..]) + rest ==
      ToBits(lens[t][0], 5) + (Deltas(lens[t][0], lens[t]) + (LengthBits(lens[t + 1..]) + rest))
    ensures t + 1 == |lens| ==> LengthBits(lens[t + 1..]) + rest == rest
    ensures lens[..t] + [lens[t]] == lens[..t + 1]
  {
    assert lens[t..][1..] == lens[t + 1..];
  }

  ghost predicate GoodTables(lens: seq<seq<nat>>, a: nat) {
    forall t {:trigger lens[t]} :: 0 <= t < |lens| ==> GoodLengths(lens[t], a)
  }

  lemma {:induction false} ReadTables(d: D, lens: seq<seq<nat>>, t: nat, rest: Bitstring) returns (e: D)
    requires d.at == Coding1 && d.c.t == t < |lens| == d.s.nGroups && d.c.all == lens[..t]
      && GoodTables(lens, NInUse(d) + 2)
    ensures e == d.(at := Coding2, i := e.i, c := e.c) && e.c.all == lens
    ensures forall t {:trigger lens[t]} :: 0 <= t < |lens| ==> lens[t] != []
    ensures Comes(Goto(d), LengthBits(lens[t..]) + rest, TablesDone(e), rest)
    decreases |lens| - t
  {
    LengthBitsSplit(lens, t, rest);
    var more := LengthBits(lens[t + 1..]) + rest;
    ReadTable(d, lens[t], more);
    e := d.(at := Coding2, i := |lens[t]|,
      c := d.c.(curr := lens[t][|lens[t]| - 1], len := lens[t], t := t + 1, all := lens[..t + 1]));
    if t + 1 < |lens| {
      e := ReadTables(e.(at := Coding1), lens, t + 1, rest);
    } else {
      assert lens[..t + 1] == lens;
    }
  }

  // ---- the header ----

  function BlockMagics(k: nat): (r: Bitstring)
    requires 1 <= k <= 7
    decreases 7 - k
  {
    if k == 7 then [] else ToBits(BlockMagic(k), 8) + BlockMagics(k + 1)
  }

  lemma MagicSplit(k: nat, rest: Bitstring)
    requires 1 <= k <= 6
    ensures BlockMagics(k) + rest == ToBits(BlockMagic(k), 8) + (BlockMagics(k + 1) + rest)
    ensures k == 6 ==> BlockMagics(k + 1) + rest == rest
  {
  }

  /** One read of a byte that was written. */
  lemma ReadsByte(d: D, v: nat, rest: Bitstring, t: Step)
    requires Need(d) == 8 && v < 256 && Next(d, v) == t
    ensures Comes(Goto(d), ToBits(v, 8) + rest, t, rest)
  {
    assert Pow2(8) == 256;
    Reads(d, v, 8, rest);
  }

  lemma MagicRead(d: D, k: nat, rest: Bitstring)
    requires 1 <= k <= 6 && d.at == BlkHdr(k)
    ensures Comes(Goto(d), ToBits(BlockMagic(k), 8) + rest,
      Goto(if k < 6 then d.(at := BlkHdr(k + 1)) else d.(at := BCrc(1), h := d.h.(blockCRC := 0))), rest)
  {
    PowWord();
    Reads(d, BlockMagic(k), 8, rest);
  }

  lemma {:induction false} ReadMagic(d: D, k: nat, rest: Bitstring)
    requires 1 <= k <= 6 && d.at == BlkHdr(k)
    ensures Comes(Goto(d), BlockMagics(k) + rest, Goto(d.(at := BCrc(1), h := d.h.(blockCRC := 0))), rest)
    decreases 7 - k
  {
    MagicSplit(k, rest);
    MagicRead(d, k, BlockMagics(k + 1) + rest);
    if k < 6 { ReadMagic(d.(at := BlkHdr(k + 1)), k + 1, rest); }
  }

  lemma BlockCrcRead(d: D, k: int, byte: nat, rest: Bitstring)
    requires d.at == BCrc(k) && byte < 256
    ensures Comes(Goto(d), ToBits(byte, 8) + rest,
      Goto(d.(at := if k < 4 then BCrc(k + 1) else RandBit, h := d.h.(blockCRC := d.h.blockCRC * 256 + byte))), rest)
  {
    ReadsByte(d, byte, rest,
      Goto(d.(at := if k < 4 then BCrc(k + 1) else RandBit, h := d.h.(blockCRC := d.h.blockCRC * 256 + byte))));
  }

  function CrcBits(c: seq<int>): Bitstring
    requires |c| == 4 && AreBytes(c)
  {
    ToBits(c[0], 8) + (ToBits(c[1], 8) + (ToBits(c[2], 8) + ToBits(c[3], 8)))
  }

  function CrcValue(c: seq<int>): int
    requires |c| == 4
  {
    ((c[0] * 256 + c[1]) * 256 + c[2]) * 256 + c[3]
  }

  lemma CrcSplit(c: seq<int>, rest: Bitstring)
    requires |c| == 4 && AreBytes(c)
    ensures CrcBits(c) + rest == ToBits(c[0], 8) + (ToBits(c[1], 8) + (ToBits(c[2], 8) + (ToBits(c[3], 8) + rest)))
  {
  }

  lemma ReadCrc(d: D, c: seq<int>, rest: Bitstring)
    requires d.at == BCrc(1) && d.h.blockCRC == 0 && |c| == 4 && AreBytes(c)
    ensures Comes(Goto(d), CrcBits(c) + rest, Goto(d.(at := RandBit, h := d.h.(blockCRC := CrcValue(c)))), rest)
  {
    CrcSplit(c, rest);
    var v1 := c[0];
    var v2 := v1 * 256 + c[1];
    var v3 := v2 * 256 + c[2];
    BlockCrcRead(d, 1, c[0], ToBits(c[1], 8) + (ToBits(c[2], 8) + (ToBits(c[3], 8) + rest)));
    BlockCrcRead(d.(at := BCrc(2), h := d.h.(blockCRC := v1)), 2, c[1], ToBits(c[2], 8) + (ToBits(c[3], 8) + rest));
    BlockCrcRead(d.(at := BCrc(3), h := d.h.(blockCRC := v2)), 3, c[2], ToBits(c[3], 8) + rest);
    BlockCrcRead(d.(at := BCrc(4), h := d.h.(blockCRC := v3)), 4, c[3], rest);
  }

  // ---- origPtr ----

  /** A 24-bit value is the three bytes the decoder reads. */
  lemma ThreeBytes(v: nat) returns (a: nat, b: nat, c: nat)
    requires v < 16777216
    ensures a < 256 && b < 256 && c < 256 && (a * 256 + b) * 256 + c == v
    ensures ToBits(v, 24) == ToBits(a, 8) + (ToBits(b, 8) + ToBits(c, 8))
  {
    PowWord();
    var w := ToBits(v, 24);
    ValueOfBits(v, 24);
    var x, y, z := w[..8], w[8..16], w[16..];
    ThreeParts(w);
    a, b, c := Value(x), Value(y), Value(z);
    ByteOf(x);
    ByteOf(y);
    ByteOf(z);
    ThreeValues(x, y, z);
  }

  lemma ThreeParts(w: Bitstring)
    requires |w| == 24
    ensures w == w[..8] + (w[8..16] + w[16..])
  {
  }

  lemma ByteOf(x: Bitstring)
    requires |x| == 8
    ensures Value(x) < 256 && ToBits(Value(x), 8) == x
  {
    assert Pow2(8) == 256;
    BitsOfValue(x);
    ValueBound(x);
  }

  lemma ThreeValues(x: Bitstring, y: Bitstring, z: Bitstring)
    requires |x| == |y| == |z| == 8
    ensures Value(x + (y + z)) == (Value(x) * 256 + Value(y)) * 256 + Value(z)
  {
    assert Pow2(8) == 256;
    assert x + (y + z) == (x + y) + z;
    ValueAppend(x + y, z);
    ValueAppend(x, y);
  }

  lemma OrigByteRead(d: D, k: int, byte: nat, rest: Bitstring)
    requires d.at == OrigPtr(k) && byte < 256
    ensures Comes(Goto(d), ToBits(byte, 8) + rest, NextOrigPtr(d, k, byte), rest)
  {
    ReadsByte(d, byte, rest, NextOrigPtr(d, k, byte));
  }

  lemma ThreeSplit(a: nat, b: nat, c: nat, rest: Bitstring)
    ensures ToBits(a, 8) + (ToBits(b, 8) + ToBits(c, 8)) + rest == ToBits(a, 8) + (ToBits(b, 8) + (ToBits(c, 8) + rest))
  {
  }

  lemma ReadOrigPtr(d: D, v: nat, rest: Bitstring)
    requires d.at == OrigPtr(1) && d.h.origPtr == 0 && v < 16777216 && v <= 10 + Limit(d)
    ensures Comes(Goto(d), ToBits(v, 24) + rest,
      Goto(d.(at := Mapping1, i := 0, inUse16 := seq(16, _ => false), h := d.h.(origPtr := v))), rest)
  {
    var a, b, c := ThreeBytes(v);
    ThreeSplit(a, b, c, rest);
    var e := d.(at := OrigPtr(2), h := d.h.(origPtr := a));
    var f := d.(at := OrigPtr(3), h := d.h.(origPtr := a * 256 + b));
    OrigByteRead(d, 1, a, ToBits(b, 8) + (ToBits(c, 8) + rest));
    OrigByteRead(e, 2, b, ToBits(c, 8) + rest);
    OrigByteRead(f, 3, c, rest);
    OrigSteps(d, e, f, a, b, c, v);
  }

  lemma OrigSteps(d: D, e: D, f: D, a: nat, b: nat, c: nat, v: nat)
    requires d.h.origPtr == 0 && v == (a * 256 + b) * 256 + c && v <= 10 + Limit(d)
    requires e == d.(at := OrigPtr(2), h := d.h.(origPtr := a))
      && f == d.(at := OrigPtr(3), h := d.h.(origPtr := a * 256 + b))
    ensures NextOrigPtr(d, 1, a) == Goto(e) && NextOrigPtr(e, 2, b) == Goto(f)
    ensures NextOrigPtr(f, 3, c) ==
      Goto(d.(at := Mapping1, i := 0, inUse16 := seq(16, _ => false), h := d.h.(origPtr := v)))
  {
  }

  /** Everything before the symbols, and then rest. */
  function HeadThen(crc: seq<int>, origPtr: nat, inUse: seq<bool>, mtf: seq<int>, lens: seq<seq<nat>>,
      rest: Bitstring): (r: Bitstring)
    requires |crc| == 4 && AreBytes(crc) && |inUse| == 256
    requires forall k {:trigger mtf[k]} :: 0 <= k < |mtf| ==> mtf[k] >= 0
    requires forall t {:trigger lens[t]} :: 0 <= t < |lens| ==> lens[t] != []
  {
    BlockMagics(1) + (CrcBits(crc) + ([0] + (ToBits(origPtr, 24) + (RowFlags(inUse, 0) + (MapBits(inUse, 0)
      + (ToBits(|lens|, 3) + (ToBits(|mtf|, 15) + (UnaryAll(mtf) + (LengthBits(lens) + rest)))))))))
  }

  /** The sizes a block header may have. */
  ghost predicate GoodHead(d: D, crc: seq<int>, origPtr: nat, inUse: seq<bool>, mtf: seq<int>, lens: seq<seq<nat>>) {
    && |crc| == 4 && AreBytes(crc) && origPtr < 16777216 && origPtr <= 10 + Limit(d) && |inUse| == 256
    && Used(inUse, 256) > 0
    && 2 <= |lens| <= N_GROUPS && 1 <= |mtf| <= MAX_SELECTORS && GoodTables(lens, Used(inUse, 256) + 2)
    && (forall k {:trigger mtf[k]} :: 0 <= k < |mtf| ==> 0 <= mtf[k] < |lens|)
    && (forall t {:trigger lens[t]} :: 0 <= t < |lens| ==> lens[t] != [])
  }

  lemma MappingRead(d: D, inUse: seq<bool>, rest: Bitstring) returns (e: D)
    requires d.at == Mapping1 && d.i == 0 && |d.inUse16| == 16 && |inUse| == 256 && Used(inUse, 256) > 0
    ensures e == d.(at := Selector1, i := e.i, j := e.j, inUse16 := e.inUse16, inUse := inUse)
    ensures Comes(Goto(d), RowFlags(inUse, 0) + (MapBits(inUse, 0) + rest), Goto(e), rest)
  {
    var flags := ReadFlags(d, inUse, MapBits(inUse, 0) + rest);
    ReadRows(d, inUse, flags, 0, rest);
    FindStart(d, inUse, flags);
    e := AtRow(d, inUse, flags, 16).(at := Selector1);
  }

  lemma FindStart(d: D, inUse: seq<bool>, flags: seq<bool>)
    requires |inUse| == 256 && Used(inUse, 256) > 0
    ensures FindRow(d.(inUse16 := flags, inUse := seq(256, _ => false), i := 0)) == FindRow(AtRow(d, inUse, flags, 0))
    ensures FindRow(AtRow(d, inUse, flags, 16)) == Goto(AtRow(d, inUse, flags, 16).(at := Selector1))
    ensures AtRow(d, inUse, flags, 16).inUse == inUse
  {
    assert Got(inUse, 0) == seq(256, _ => false) && Got(inUse, 256) == inUse;
  }

  /** Reading the header leaves the machine ready for the first symbol, with these tables. */
  lemma ReadHead(d: D, crc: seq<int>, origPtr: nat, inUse: seq<bool>, mtf: seq<int>, lens: seq<seq<nat>>,
      rest: Bitstring)
      returns (e: D)
    requires d.at == BlkHdr(1) && GoodHead(d, crc, origPtr, inUse, mtf, lens)
    ensures e ==
      d.(at := e.at, i := e.i, j := e.j, h := d.h.(blockCRC := CrcValue(crc), randomised := 0, origPtr := origPtr),
      inUse16 := e.inUse16, inUse := inUse, s := Sels(|lens|, |mtf|, mtf, Selectors(mtf, Iota(|lens|))), c := e.c)
      && e.c.all == lens
    ensures Comes(Goto(d), HeadThen(crc, origPtr, inUse, mtf, lens, rest), TablesDone(e), rest)
  {
    var r8 := LengthBits(lens) + rest;
    var r7 := UnaryAll(mtf) + r8;
    var r6 := ToBits(|lens|, 3) + (ToBits(|mtf|, 15) + r7);
    var r4 := RowFlags(inUse, 0) + (MapBits(inUse, 0) + r6);
    var d3 := ReadFront(d, crc, origPtr, r4);
    var d4 := MappingRead(d3, inUse, r6);
    var d5 := CountsRead(d4, |lens|, |mtf|, r7);
    e := ReadCoding(d5, mtf, lens, rest);
  }

  /** Selectors and lengths. */
  lemma ReadCoding(d: D, mtf: seq<int>, lens: seq<seq<nat>>, rest: Bitstring) returns (e: D)
    requires d.at == Selector3 && d.i == 0 && d.j == 0 && d.s.nGroups == |lens| && d.s.nSelectors == |mtf|
      && d.s.mtf == [] && 1 <= |mtf| <= MAX_SELECTORS && 2 <= |lens| && GoodTables(lens, NInUse(d) + 2)
    requires forall k {:trigger mtf[k]} :: 0 <= k < |mtf| ==> 0 <= mtf[k] < |lens|
    requires forall t {:trigger lens[t]} :: 0 <= t < |lens| ==> lens[t] != []
    ensures e ==
      d.(at := e.at, i := e.i, j := e.j, s := Sels(|lens|, |mtf|, mtf, Selectors(mtf, Iota(|lens|))), c := e.c)
      && e.c.all == lens
    ensures Comes(Goto(d), UnaryAll(mtf) + (LengthBits(lens) + rest), TablesDone(e), rest)
  {
    ReadSelectors(d, mtf, 0, LengthBits(lens) + rest);
    assert mtf[0..] == mtf && mtf[..0] == [] && lens[0..] == lens && lens[..0] == [];
    e := ReadTables(SelEnd(d, mtf), lens, 0, rest);
  }

  /** The magic number, the CRC, the randomised bit and origPtr. */
  lemma ReadFront(d: D, crc: seq<int>, origPtr: nat, rest: Bitstring) returns (e: D)
    requires d.at == BlkHdr(1) && |crc| == 4 && AreBytes(crc) && origPtr < 16777216 && origPtr <= 10 + Limit(d)
    ensures e == d.(at := Mapping1, i := 0, inUse16 := e.inUse16,
      h := d.h.(blockCRC := CrcValue(crc), randomised := 0, origPtr := origPtr))
      && |e.inUse16| == 16
    ensures Comes(Goto(d), BlockMagics(1) + (CrcBits(crc) + ([0] + (ToBits(origPtr, 24) + rest))), Goto(e), rest)
  {
    var r3 := ToBits(origPtr, 24) + rest;
    ReadMagic(d, 1, CrcBits(crc) + ([0] + r3));
    var d1 := d.(at := BCrc(1), h := d.h.(blockCRC := 0));
    ReadCrc(d1, crc, [0] + r3);
    var d2 := d.(at := RandBit, h := d.h.(blockCRC := CrcValue(crc)));
    var d3 := RandRead(d2, r3);
    ReadOrigPtr(d3, origPtr, rest);
    e := d3.(at := Mapping1, i := 0, inUse16 := seq(16, _ => false), h := d3.h.(origPtr := origPtr));
  }

  lemma RandRead(d: D, rest: Bitstring) returns (e: D)
    requires d.at == RandBit
    ensures e == d.(at := OrigPtr(1), h := d.h.(randomised := 0, origPtr := 0))
      && Comes(Goto(d), [0] + rest, Goto(e), rest)
  {
    e := d.(at := OrigPtr(1), h := d.h.(randomised := 0, origPtr := 0));
    ReadsBit(d, 0, rest);
  }

  lemma CountsRead(d: D, g: nat, n: nat, rest: Bitstring) returns (e: D)
    requires d.at == Selector1 && 2 <= g <= N_GROUPS && 1 <= n <= MAX_SELECTORS
    ensures e == d.(at := Selector3, i := 0, j := 0, s := d.s.(nGroups := g, nSelectors := n, mtf := []))
    ensures Comes(Goto(d), ToBits(g, 3) + (ToBits(n, 15) + rest), Goto(e), rest)
  {
    assert Pow2(3) == 8;
    assert Pow2(15) == 32768;
    var f := d.(at := Selector2, s := d.s.(nGroups := g));
    Reads(d, g, 3, ToBits(n, 15) + rest);
    Reads(f, n, 15, rest);
    e := f.(at := Selector3, i := 0, j := 0, s := f.s.(nSelectors := n, mtf := []));
  }

  /** The machine when the selectors have been decoded. */
  ghost function SelEnd(d: D, mtf: seq<int>): D {
    d.(at := Coding1, i := |mtf|, j := 0,
      s := d.s.(mtf := mtf, selector := Selectors(mtf, Iota(if d.s.nGroups < 0 then 0 else d.s.nGroups))),
      c := d.c.(t := 0, all := []))
  }
}
