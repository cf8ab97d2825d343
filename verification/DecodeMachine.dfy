/** BZ2_decompress as it can be resumed: a state is the label of the read it stopped at together with
    the variables that are saved there; a step takes the value read to the next label. */
module DecodeMachine {
  import opened Counting
  import opened MtfTable
  import opened Mtf
  import Rle
  import opened MtfEncode
  import opened Bits
  import opened BitIo
  import opened Canonical

  const G_SIZE := 50
  const N_GROUPS := 6
  const MAX_SELECTORS := 18002

  /** Which of the three uses of GET_MTF_VAL is under way: the first symbol, one inside a run, one after
      another entry. */
  datatype Use = FirstSym | InRun | AfterSym

  datatype Label = Magic(k: int) | BlkHdr(k: int) | BCrc(k: int) | RandBit | OrigPtr(k: int) | Mapping1 | Mapping2
    | Selector1 | Selector2 | Selector3 | Coding1 | Coding2 | Coding3 | MtfBits(use: Use) | MtfBit(use: Use)
    | EndHdr(k: int) | CCrc(k: int) | Output | Idle

  datatype Ret = Ok | StreamEnd | MagicError | DataFault

  /** The decoding tables of one group. */
  datatype Group = Group(limit: seq<int>, base: seq<int>, perm: seq<int>, minLen: int)

  /** The header of the stream and of the block. */
  datatype Header = Header(size: int, blockCRC: int, randomised: int, origPtr: int, combinedCRC: int)

  datatype Sels = Sels(nGroups: int, nSelectors: int, mtf: seq<int>, selector: seq<int>)

  datatype Lens = Lens(t: int, curr: int, len: seq<nat>, all: seq<seq<nat>>)

  /** The symbol being read, and what the symbols have made so far. */
  datatype Syms = Syms(groups: seq<Group>, groupNo: int, groupPos: int, zn: int,
      zvec: int, l: seq<int>, out: seq<int>, es: int, n: int)

  datatype D = D(at: Label, i: int, j: int, h: Header, inUse16: seq<bool>, inUse: seq<bool>, s: Sels, c: Lens, y: Syms)

  /** A step goes on to another read or returns. */
  datatype Step = Goto(d: D) | Stop(ret: Ret, d: D)

  function Init(): (d: D)
    ensures Sound(d)
  {
    D(Magic(1), 0, 0, Header(0, 0, 0, 0, 0), [], seq(256, _ => false), Sels(0, 0, [], []), Lens(0, 0, [], []),
      Syms([], 0, 0, 0, 0, [], [], 0, 0))
  }

  // ---- tables ----

  /** The symbols with codes of length n among the first i, in order. */
  function SymsOf(len: seq<nat>, n: nat, i: nat): (r: seq<int>)
    requires i <= |len|
    ensures |r| == Occ(len, n, i)
  {
    if i == 0 then [] else SymsOf(len, n, i - 1) + if len[i - 1] == n then [i - 1] else []
  }

  function PermTo(len: seq<nat>, n: nat): (r: seq<int>)
    ensures |r| == Less(len, n, |len|)
  {
    if n == 0 then [] else PermTo(len, n - 1) + SymsOf(len, n - 1, |len|)
  }

  function MinOf(len: seq<nat>): (r: nat)
    ensures r <= 32 && (forall i {:trigger len[i]} :: 0 <= i < |len| ==> r <= len[i])
    ensures r == 32 || exists i :: 0 <= i < |len| && len[i] == r
  {
    if len == [] then 32
    else
      var m, x := MinOf(len[..|len| - 1]), len[|len| - 1];
      if x < m then assert len[|len| - 1] == x; x
      else
        assert m == 32 || exists i :: 0 <= i < |len| - 1 && len[..|len| - 1][i] == len[i] == m;
        m
  }

  function MaxOf(len: seq<nat>): (r: nat)
    ensures forall i {:trigger len[i]} :: 0 <= i < |len| ==> len[i] <= r
    ensures r == 0 || exists i :: 0 <= i < |len| && len[i] == r
  {
    if len == [] then 0
    else
      var m, x := MaxOf(len[..|len| - 1]), len[|len| - 1];
      if x > m then assert len[|len| - 1] == x; x
      else
        assert m == 0 || exists i :: 0 <= i < |len| - 1 && len[..|len| - 1][i] == len[i] == m;
        m
  }

  function Pad(s: seq<int>, n: nat): (r: seq<int>)
    ensures |r| == if |s| < n then n else |s|
  {
    s + seq(if |s| < n then n - |s| else 0, _ => 0)
  }

  /** What BZ2_hbCreateDecodeTables makes of the lengths of one group. */
  function GroupOf(len: seq<nat>): (g: Group)
    ensures |g.limit| == |g.base| == MAX_CODE_LEN && |g.perm| >= MAX_ALPHA && g.minLen >= 0
  {
    var lo, hi := MinOf(len), MaxOf(len);
    Group(seq(MAX_CODE_LEN, n requires 0 <= n < MAX_CODE_LEN =>
            if lo <= n <= hi then First(len, n) + Occ(len, n, |len|) - 1 else 0),
      seq(MAX_CODE_LEN, n requires 0 <= n < MAX_CODE_LEN =>
          if lo <= n <= hi then First(len, n) - Less(len, n, |len|) else Less(len, n, |len|)),
      Pad(PermTo(len, MAX_CODE_LEN), MAX_ALPHA), lo)
  }

  // ---- one step ----

  /** The table of bytes in use is whole and the block so far fits. */
  predicate Sound(d: D) { |d.inUse| == 256 && |d.y.out| <= Limit(d) }

  /** A step keeps that, and returns Ok only with a block to put out. */
  predicate Fine(d: D, s: Step) {
    && (Sound(d) ==> Sound(s.d))
    && (s.Stop? && s.ret == Ok ==> s.d.at == Output && 0 <= s.d.h.origPtr < |s.d.y.out|)
    && (s.Stop? && s.ret == StreamEnd ==> s.d.at == Idle)
    && (s.Goto? && AtRead(d) ==> AtRead(s.d))
  }

  /** The label is one that reads. */
  predicate AtRead(d: D) { d.at != Output && d.at != Idle }

  function SetAt<T>(s: seq<T>, i: int, x: T): (r: seq<T>)
    ensures |r| == |s|
  {
    if 0 <= i < |s| then s[i := x] else s
  }

  function Limit(d: D): int { 100000 * d.h.size }

  function Fail(d: D): (s: Step)
    ensures Fine(d, s)
  { Stop(DataFault, d) }

  /** The next row of the mapping table that is in use, or 16. */
  function NextRow(flags: seq<bool>, i: nat): (r: nat)
    ensures i <= 16 ==> i <= r <= 16
    decreases 16 - i
  {
    if i >= 16 || (i < |flags| && flags[i]) then i else NextRow(flags, i + 1)
  }

  function FindRow(d: D): (s: Step)
    ensures Fine(d, s)
  {
    var r := NextRow(d.inUse16, if d.i < 0 then 0 else d.i);
    var e := d.(at := Mapping2, i := r, j := if r >= 16 then 16 else 0);
    if r >= 16 then MapDone(e) else Goto(e)
  }

  function NInUse(d: D): nat { Used(d.inUse, |d.inUse|) }

  function MapDone(d: D): (s: Step)
    ensures Fine(d, s)
  {
    if NInUse(d) == 0 then Fail(d) else Goto(d.(at := Selector1))
  }

  /** Undoes the move-to-front coding of the selectors. */
  function Selectors(mtf: seq<int>, pos: seq<int>): (r: seq<int>)
    ensures |r| == |mtf|
    decreases |mtf|
  {
    if mtf == [] then []
    else if 0 <= mtf[0] < |pos| then [pos[mtf[0]]] + Selectors(mtf[1..], MoveToFront(pos, mtf[0]))
    else [0] + Selectors(mtf[1..], pos)
  }

  function SelectorsDone(d: D): (s: Step)
    ensures Fine(d, s)
  {
    var n := if d.s.nSelectors > MAX_SELECTORS then MAX_SELECTORS else d.s.nSelectors;
    var sel := Selectors(d.s.mtf, Iota(if d.s.nGroups < 0 then 0 else d.s.nGroups));
    Goto(d.(at := Coding1, s := d.s.(nSelectors := n, selector := sel), c := d.c.(t := 0, all := [])))
  }

  /** The test at the head of the loop over one code length. */
  function CheckCurr(d: D): (s: Step)
    ensures Fine(d, s)
  {
    if d.c.curr < 1 || d.c.curr > LONGEST then Fail(d) else Goto(d.(at := Coding2))
  }

  /** A code length is known. */
  function LengthDone(d: D): (s: Step)
    ensures Fine(d, s)
  {
    var c := d.c.(len := d.c.len + [if d.c.curr < 0 then 0 else d.c.curr]);
    if d.i + 1 < NInUse(d) + 2 then CheckCurr(d.(i := d.i + 1, c := c))
    else
      var e := d.(i := d.i + 1, c := c.(t := c.t + 1, all := c.all + [c.len]));
      if e.c.t < e.s.nGroups then Goto(e.(at := Coding1)) else TablesDone(e)
  }

  function GroupsOf(lens: seq<seq<nat>>): (r: seq<Group>)
    ensures |r| == |lens|
  {
    seq(|lens|, k requires 0 <= k < |lens| => GroupOf(lens[k]))
  }

  function TablesDone(d: D): (s: Step)
    ensures Fine(d, s)
  {
    StartSym(d.(y := d.y.(groups := GroupsOf(d.c.all), groupNo := -1, groupPos := 0, out := [], l := Iota(256))),
      FirstSym)
  }

  function NoGroup(): (g: Group)
    ensures |g.limit| == |g.base| == MAX_CODE_LEN && |g.perm| >= MAX_ALPHA
  {
    Group(Pad([], MAX_CODE_LEN), Pad([], MAX_CODE_LEN), Pad([], MAX_ALPHA), 0)
  }

  function GroupNow(selector: seq<int>, y: Syms): (g: Group)
    ensures |g.limit| == |g.base| == MAX_CODE_LEN && |g.perm| >= MAX_ALPHA
  {
    var sel := if 0 <= y.groupNo < |selector| then selector[y.groupNo] else 0;
    if 0 <= sel < |y.groups| && |y.groups[sel].limit| == |y.groups[sel].base| == MAX_CODE_LEN
      && |y.groups[sel].perm| >= MAX_ALPHA
    then y.groups[sel] else NoGroup()
  }

  /** GET_MTF_VAL up to its first read. */
  function StartSym(d: D, use: Use): (s: Step)
    ensures Fine(d, s)
  {
    var y := if d.y.groupPos == 0 then d.y.(groupNo := d.y.groupNo + 1, groupPos := G_SIZE - 1)
      else d.y.(groupPos := d.y.groupPos - 1);
    if d.y.groupPos == 0 && y.groupNo >= d.s.nSelectors then Fail(d)
    else Goto(d.(at := MtfBits(use), y := y.(zn := GroupNow(d.s.selector, y).minLen)))
  }

  /** The test between the bits of a code. */
  function CheckCode(d: D, use: Use): (s: Step)
    ensures Fine(d, s)
  {
    var g := GroupNow(d.s.selector, d.y);
    match LookUp(g.limit, g.base, g.perm, d.y.zn, d.y.zvec)
    case Hit(sym) => OnSymbol(d, use, sym)
    case Miss => Goto(d.(at := MtfBit(use), y := d.y.(zn := d.y.zn + 1)))
    case Wrong => Fail(d)
  }

  function OnSymbol(d: D, use: Use, sym: int): (s: Step)
    ensures Fine(d, s)
  {
    if use == InRun then
      if sym == RUNA || sym == RUNB then RunDigit(d, sym)
      else if |d.y.out| + d.y.es + 1 > Limit(d) then Fail(d)
      else Dispatch(d.(y := RunOut(d.y)), sym)
    else Dispatch(d, sym)
  }

  /** The run that has been read comes out. */
  function RunOut(y: Syms): Syms {
    y.(out := y.out + Rle.Repeat(if y.l == [] then 0 else y.l[0], if y.es + 1 < 0 then 0 else y.es + 1))
  }

  function RunDigit(d: D, sym: int): (s: Step)
    ensures Fine(d, s)
  {
    if d.y.n >= RUN_LIMIT then Fail(d)
    else StartSym(d.(y := d.y.(es := d.y.es + (if sym == RUNA then d.y.n else 2 * d.y.n), n := d.y.n * 2)), InRun)
  }

  /** The head of the loop over the symbols. */
  function Dispatch(d: D, sym: int): (s: Step)
    ensures Fine(d, s)
  {
    if sym == NInUse(d) + 1 then BlockDone(d)
    else if sym == RUNA || sym == RUNB then RunDigit(d.(y := d.y.(es := -1, n := 1)), sym)
    else if |d.y.out| >= Limit(d) then Fail(d)
    else if 0 <= sym - 1 < |d.y.l| then
      StartSym(d.(y := d.y.(out := d.y.out + [d.y.l[sym - 1]], l := MoveToFront(d.y.l, sym - 1))), AfterSym)
    else Fail(d)
  }

  function BlockDone(d: D): (s: Step)
    ensures Fine(d, s)
  {
    if d.h.origPtr < 0 || d.h.origPtr >= |d.y.out| then Fail(d) else Stop(Ok, d.(at := Output))
  }

  /** How many bits the read at this label takes. */
  function Need(d: D): (n: nat)
    ensures 1 <= n <= 20
  {
    match d.at
    case Magic(_) => 8 case BlkHdr(_) => 8 case BCrc(_) => 8 case OrigPtr(_) => 8 case EndHdr(_) => 8 case CCrc(_) => 8
    case Selector1 => 3
    case Selector2 => 15
    case Coding1 => 5
    case MtfBits(_) => if 1 <= d.y.zn <= LONGEST then d.y.zn else 1
    case _ => 1
  }

  /** From the value read at a label to the next label. */
  function Next(d: D, v: nat): (s: Step)
    ensures Fine(d, s)
  {
    match d.at
    case Magic(k) => NextMagic(d, k, v)
    case BlkHdr(k) => NextHeader(d, k, v)
    case BCrc(k) =>
      Goto(d.(at := if k < 4 then BCrc(k + 1) else RandBit, h := d.h.(blockCRC := d.h.blockCRC * 256 + v)))
    case RandBit => Goto(d.(at := OrigPtr(1), h := d.h.(randomised := v, origPtr := 0)))
    case OrigPtr(k) => NextOrigPtr(d, k, v)
    case Mapping1 => NextFlag(d, v)
    case Mapping2 => NextByte(d, v)
    case Selector1 => if v < 2 || v > N_GROUPS then Fail(d) else Goto(d.(at := Selector2, s := d.s.(nGroups := v)))
    case Selector2 =>
      if v < 1 then Fail(d) else Goto(d.(at := Selector3, i := 0, j := 0, s := d.s.(nSelectors := v, mtf := [])))
    case Selector3 => NextSelector(d, v)
    case Coding1 => CheckCurr(d.(i := 0, c := d.c.(curr := v, len := [])))
    case Coding2 => if v != 0 then Goto(d.(at := Coding3)) else LengthDone(d)
    case Coding3 => CheckCurr(d.(c := d.c.(curr := if v == 0 then d.c.curr + 1 else d.c.curr - 1)))
    case MtfBits(use) => CheckCode(d.(y := d.y.(zvec := v)), use)
    case MtfBit(use) => CheckCode(d.(y := d.y.(zvec := 2 * d.y.zvec + v)), use)
    case EndHdr(k) => NextTrailer(d, k, v)
    case CCrc(k) =>
      var e := d.(h := d.h.(combinedCRC := d.h.combinedCRC * 256 + v));
      if k < 4 then Goto(e.(at := CCrc(k + 1))) else Stop(StreamEnd, e.(at := Idle))
    case Output => Fail(d)
    case Idle => Fail(d)
  }

  function NextMagic(d: D, k: int, v: int): (s: Step)
    ensures Fine(d, s)
  {
    if k < 4 then
      if v != (if k == 1 then 0x42 else if k == 2 then 0x5a else 0x68) then Stop(MagicError, d)
        else Goto(d.(at := Magic(k + 1)))
    else if v < 0x31 || v > 0x39 then Stop(MagicError, d)
    else Goto(d.(at := BlkHdr(1), h := d.h.(size := v - 0x30), y := d.y.(out := [])))
  }

  function BlockMagic(k: int): nat {
    if k == 1 then 0x31
      else if k == 2 then 0x41 else if k == 3 then 0x59 else if k == 4 then 0x26 else if k == 5 then 0x53 else 0x59
  }

  function EndMagic(k: int): nat {
    if k == 1 then 0x17
      else if k == 2 then 0x72 else if k == 3 then 0x45 else if k == 4 then 0x38 else if k == 5 then 0x50 else 0x90
  }

  function NextHeader(d: D, k: int, v: int): (s: Step)
    ensures Fine(d, s)
  {
    if k == 1 && v == EndMagic(1) then Goto(d.(at := EndHdr(2)))
    else if v != BlockMagic(k) then Fail(d)
    else if k < 6 then Goto(d.(at := BlkHdr(k + 1)))
    else Goto(d.(at := BCrc(1), h := d.h.(blockCRC := 0)))
  }

  function NextTrailer(d: D, k: int, v: int): (s: Step)
    ensures Fine(d, s)
  {
    if v != EndMagic(k) then Fail(d)
    else if k < 6 then Goto(d.(at := EndHdr(k + 1)))
    else Goto(d.(at := CCrc(1), h := d.h.(combinedCRC := 0)))
  }

  function NextOrigPtr(d: D, k: int, v: int): (s: Step)
    ensures Fine(d, s)
  {
    var p := d.h.origPtr * 256 + v;
    var e := d.(h := d.h.(origPtr := p));
    if k < 3 then Goto(e.(at := OrigPtr(k + 1)))
    else if p > 10 + Limit(d) then Fail(e)
    else Goto(e.(at := Mapping1, i := 0, inUse16 := seq(16, _ => false)))
  }

  function NextFlag(d: D, v: int): (s: Step)
    ensures Fine(d, s)
  {
    var flags := SetAt(d.inUse16, d.i, v == 1);
    if d.i + 1 < 16 then Goto(d.(inUse16 := flags, i := d.i + 1))
    else FindRow(d.(inUse16 := flags, inUse := seq(256, _ => false), i := 0))
  }

  function NextByte(d: D, v: int): (s: Step)
    ensures Fine(d, s)
  {
    var got := if v == 1 then SetAt(d.inUse, d.i * 16 + d.j, true) else d.inUse;
    if d.j + 1 < 16 then Goto(d.(inUse := got, j := d.j + 1)) else FindRow(d.(inUse := got, i := d.i + 1, j := d.j + 1))
  }

  function NextSelector(d: D, v: int): (s: Step)
    ensures Fine(d, s)
  {
    if v != 0 then (if d.j + 1 >= d.s.nGroups then Fail(d.(j := d.j + 1)) else Goto(d.(j := d.j + 1)))
    else
      var e := d.(i := d.i + 1, j := 0, s := d.s.(mtf := if d.i < MAX_SELECTORS then d.s.mtf + [d.j] else d.s.mtf));
      if e.i < e.s.nSelectors then Goto(e) else SelectorsDone(e)
  }

  // ---- runs ----

  /** Where a run over some bits ends: it wants more, or it has returned. */
  datatype End = Waiting(d: D, rest: Bitstring) | Returned(ret: Ret, d: D, rest: Bitstring)

  function Go(d: D, bits: Bitstring): (e: End)
    ensures Sound(d) ==> Sound(e.d)
    ensures |e.rest| <= |bits| && (e.Returned? ==> |e.rest| < |bits|)
    ensures e.Returned? && e.ret == Ok ==> e.d.at == Output && 0 <= e.d.h.origPtr < |e.d.y.out|
    ensures e.Returned? && e.ret == StreamEnd ==> e.d.at == Idle
    ensures e.Waiting? && AtRead(d) ==> AtRead(e.d)
    decreases |bits|
  {
    if |bits| < Need(d) then Waiting(d, bits)
    else
      match Next(d, Value(bits[..Need(d)]))
      case Goto(e) => Go(e, bits[Need(d)..])
      case Stop(ret, e) => Returned(ret, e, bits[Need(d)..])
  }

  /** A run that stopped for want of input goes on as if it had never stopped. */
  lemma {:induction false} RunResumes(d: D, bits: Bitstring, more: Bitstring)
    ensures Go(d, bits + more) == match Go(d, bits)
                                   case Waiting(e, rest) => Go(e, rest + more)
                                   case Returned(ret, e, rest) => Returned(ret, e, rest + more)
    decreases |bits|
  {
    var n := Need(d);
    if |bits| >= n {
      Behind(bits, more, n);
      var s := Next(d, Value(bits[..n]));
      GoStep(d, bits, s);
      GoStep(d, bits + more, s);
      if s.Goto? { RunResumes(s.d, bits[n..], more); }
    }
  }

  lemma Behind(bits: Bitstring, more: Bitstring, n: nat)
    requires n <= |bits|
    ensures (bits + more)[..n] == bits[..n] && (bits + more)[n..] == bits[n..] + more
  {
  }

  lemma GoStep(d: D, bits: Bitstring, s: Step)
    requires |bits| >= Need(d) && s == Next(d, Value(bits[..Need(d)]))
    ensures Go(d, bits) ==
      match s case Goto(e) => Go(e, bits[Need(d)..]) case Stop(ret, e) => Returned(ret, e, bits[Need(d)..])
  {
  }

  /** BZ2_decompress on a stream: reads on from the saved state until it returns or wants input. */
  method Decompress(r: Reader, d0: D) returns (wants: bool, ret: Ret, d: D)
    requires r.Valid()
    modifies r
    ensures r.Valid()
    ensures Go(d0, old(r.Coming())) == if wants then Waiting(d, r.Coming()) else Returned(ret, d, r.Coming())
    ensures wants ==> r.next == []
  {
    d, ret := d0, Ok;
    ghost var all := Go(d0, r.Coming());
    while true
      invariant r.Valid() && Go(d, r.Coming()) == all
      decreases |r.Coming()|
    {
      var ok, v := r.Get(Need(d));
      if !ok { return true, Ok, d; }
      match Next(d, v)
      case Goto(e) => d := e;
      case Stop(x, e) => return false, x, e;
    }
  }
}
