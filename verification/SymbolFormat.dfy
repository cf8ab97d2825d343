/** The symbols of a block: the codes sendMTFValues writes group by group, and the machine reading them
    back into the column. */
module SymbolFormat {
  import opened Sequences
  import opened Counting
  import opened MtfTable
  import opened Mtf
  import Rle
  import opened Bits
  import opened Canonical
  import opened DecodeMachine
  import opened BlockFormat

  // ---- the tables of a group ----

  lemma {:induction false} SymsAt(len: seq<nat>, n: nat, k: nat, i: nat)
    requires i < k <= |len| && len[i] == n
    ensures Occ(len, n, i) < Occ(len, n, k) && SymsOf(len, n, k)[Occ(len, n, i)] == i
    decreases k
  {
    if i < k - 1 { SymsAt(len, n, k - 1, i); }
  }

  lemma {:induction false} PermAt(len: seq<nat>, n: nat, i: nat)
    requires i < |len| && len[i] < n
    ensures T(len, i) < |PermTo(len, n)| && PermTo(len, n)[T(len, i)] == i
    decreases n
  {
    if len[i] == n - 1 {
      SymsAt(len, n - 1, |len|, i);
    } else {
      PermAt(len, n - 1, i);
    }
  }

  /** The tables the decoder makes are those of the encoder's code. */
  lemma GroupTables(len: seq<nat>, a: nat)
    requires GoodLengths(len, a) && a > 0
    ensures var g := GroupOf(len);
      Tables(len, MinOf(len), MaxOf(len), g.limit, g.base, g.perm) && g.minLen == MinOf(len)
    ensures 1 <= MinOf(len) <= MaxOf(len) <= LONGEST
  {
    var g, lo, hi := GroupOf(len), MinOf(len), MaxOf(len);
    assert lo <= len[0] <= hi;
    LessBound(len, MAX_CODE_LEN, |len|);
    forall i {:trigger T(len, i)} | 0 <= i < |len| ensures 0 <= T(len, i) < MAX_ALPHA && g.perm[T(len, i)] == i {
      assert len[i] < MAX_CODE_LEN;
      PermAt(len, MAX_CODE_LEN, i);
    }
  }

  // ---- one code ----

  /** The machine is reading a symbol coded with len. */
  ghost predicate Reading(d: D, len: seq<nat>, a: nat) {
    a > 0 && GoodLengths(len, a) && GroupNow(d.s.selector, d.y) == GroupOf(len)
  }

  /** What the tables say at a code's own length, and at a shorter one. */
  lemma TableHit(len: seq<nat>, a: nat, i: nat)
    requires GoodLengths(len, a) && i < a
    ensures var g, n, c := GroupOf(len), len[i], Code(len, i);
            c <= g.limit[n] && 0 <= c - g.base[n] < MAX_ALPHA && g.perm[c - g.base[n]] == i
  {
    GroupTables(len, a);
    var g, n := GroupOf(len), len[i];
    OccMono(len, n, i + 1, |len|);
    assert g.limit[n] == First(len, n) + Occ(len, n, |len|) - 1;
    assert g.base[n] == First(len, n) - Less(len, n, |len|);
    assert Code(len, i) - g.base[n] == T(len, i);
  }

  lemma TableMiss(len: seq<nat>, a: nat, i: nat, zn: nat)
    requires GoodLengths(len, a) && i < a && MinOf(len) <= zn < len[i]
    ensures Shr(Code(len, i), len[i] - zn) > GroupOf(len).limit[zn]
  {
    GroupTables(len, a);
    PrefixAbove(len, len[i], zn, Code(len, i));
    assert GroupOf(len).limit[zn] == First(len, zn) + Occ(len, zn, |len|) - 1;
  }

  lemma CodeEnd(d: D, use: Use, len: seq<nat>, a: nat, i: nat)
    requires Reading(d, len, a) && i < a && d.y.zn == len[i] && d.y.zvec == Code(len, i)
    ensures CheckCode(d, use) == OnSymbol(d, use, i)
  {
    TableHit(len, a, i);
    CheckHit(d, use, GroupOf(len), i);
  }

  lemma CheckHit(d: D, use: Use, g: Group, sym: int)
    requires GroupNow(d.s.selector, d.y) == g && |g.limit| == |g.base| == MAX_CODE_LEN && |g.perm| >= MAX_ALPHA &&
      LookUp(g.limit, g.base, g.perm, d.y.zn, d.y.zvec) == Hit(sym)
    ensures CheckCode(d, use) == OnSymbol(d, use, sym)
  {
  }

  lemma CodeMore(d: D, use: Use, len: seq<nat>, a: nat, i: nat)
    requires Reading(d, len, a) && i < a && MinOf(len) <= d.y.zn < len[i]
      && d.y.zvec == Shr(Code(len, i), len[i] - d.y.zn)
    ensures CheckCode(d, use) == Goto(d.(at := MtfBit(use), y := d.y.(zn := d.y.zn + 1)))
  {
    TableMiss(len, a, i, d.y.zn);
  }

  lemma CodeBitRead(d: D, use: Use, b: Bit, rest: Bitstring)
    requires d.at == MtfBit(use)
    ensures Comes(Goto(d), [b] + rest, CheckCode(d.(y := d.y.(zvec := 2 * d.y.zvec + b)), use), rest)
  {
    CodeBitNext(d, use, b);
    ReadsBitTo(d, b, rest, CheckCode(d.(y := d.y.(zvec := 2 * d.y.zvec + b)), use));
  }

  lemma CodeBitNext(d: D, use: Use, b: Bit)
    requires d.at == MtfBit(use)
    ensures Need(d) == 1 && Next(d, b) == CheckCode(d.(y := d.y.(zvec := 2 * d.y.zvec + b)), use)
  {
  }

  lemma ReadsBitTo(d: D, b: Bit, rest: Bitstring, t: Step)
    requires Need(d) == 1 && Next(d, b) == t
    ensures Comes(Goto(d), [b] + rest, t, rest)
  {
    ReadsBit(d, b, rest);
  }

  lemma CodeSplit(bits: Bitstring, zn: nat, rest: Bitstring)
    requires zn <= |bits|
    ensures zn < |bits| ==> bits[zn..] + rest == [bits[zn]] + (bits[zn + 1..] + rest)
    ensures zn == |bits| ==> bits[zn..] + rest == rest
  {
  }

  /** The machine one bit further into the code of symbol i. */
  ghost function OneBitOn(d: D, use: Use, len: seq<nat>, i: nat): D
    requires i < |len| && 0 <= d.y.zn < len[i]
  {
    d.(at := MtfBit(use), y := d.y.(zn := d.y.zn + 1, zvec := Shr(Code(len, i), len[i] - (d.y.zn + 1))))
  }

  lemma CodeStep(d: D, use: Use, len: seq<nat>, a: nat, i: nat, more: Bitstring)
    requires Reading(d, len, a) && i < a && MinOf(len) <= d.y.zn < len[i] && Code(len, i) < Pow2(len[i])
    requires d.y.zvec == Shr(Code(len, i), len[i] - d.y.zn)
    ensures Comes(CheckCode(d, use), [CodeBits(len, i)[d.y.zn]] + more, CheckCode(OneBitOn(d, use, len, i), use), more)
  {
    CodeMore(d, use, len, a, i);
    OneBitIs(d, use, len, i);
    BitFrom(d.(at := MtfBit(use), y := d.y.(zn := d.y.zn + 1)), OneBitOn(d, use, len, i), use, CodeBits(len, i)[d.y.zn],
      more);
  }

  lemma OneBitIs(d: D, use: Use, len: seq<nat>, i: nat)
    requires i < |len| && 0 <= d.y.zn < len[i] && Code(len, i) < Pow2(len[i])
      && d.y.zvec == Shr(Code(len, i), len[i] - d.y.zn)
    ensures var f := d.(at := MtfBit(use), y := d.y.(zn := d.y.zn + 1));
            OneBitOn(d, use, len, i) == f.(y := f.y.(zvec := 2 * f.y.zvec + CodeBits(len, i)[d.y.zn]))
  {
    NextBit(Code(len, i), len[i], d.y.zn);
  }

  lemma BitFrom(f: D, g: D, use: Use, b: Bit, more: Bitstring)
    requires f.at == MtfBit(use) && g == f.(y := f.y.(zvec := 2 * f.y.zvec + b))
    ensures Comes(Goto(f), [b] + more, CheckCode(g, use), more)
  {
    CodeBitRead(f, use, b, more);
  }

  lemma StillReading(d: D, use: Use, len: seq<nat>, a: nat, i: nat) returns (f: D)
    requires Reading(d, len, a) && i < a && 0 <= d.y.zn < len[i]
    ensures f == OneBitOn(d, use, len, i) && Reading(f, len, a)
    ensures f.y.zn == d.y.zn + 1 && f.y.zvec == Shr(Code(len, i), len[i] - f.y.zn)
    ensures f == d.(at := f.at, y := d.y.(zn := f.y.zn, zvec := f.y.zvec))
  {
    f := OneBitOn(d, use, len, i);
  }

  lemma {:induction false} CodeOn(d: D, use: Use, len: seq<nat>, a: nat, i: nat, rest: Bitstring) returns (e: D)
    requires Reading(d, len, a) && i < a && MinOf(len) <= d.y.zn <= len[i] && Code(len, i) < Pow2(len[i])
    requires d.y.zvec == Shr(Code(len, i), len[i] - d.y.zn)
    ensures e == d.(at := e.at, y := d.y.(zn := e.y.zn, zvec := e.y.zvec))
    ensures Comes(CheckCode(d, use), CodeBits(len, i)[d.y.zn..] + rest, OnSymbol(e, use, i), rest)
    decreases len[i] - d.y.zn
  {
    var bits, zn := CodeBits(len, i), d.y.zn;
    CodeSplit(bits, zn, rest);
    if zn == len[i] {
      e := d;
      CodeEnd(d, use, len, a, i);
      Stays(OnSymbol(d, use, i), rest);
    } else {
      CodeStep(d, use, len, a, i, bits[zn + 1..] + rest);
      var f := StillReading(d, use, len, a, i);
      e := CodeOn(f, use, len, a, i, rest);
    }
  }

  lemma FirstBitsRead(d: D, use: Use, v: nat, rest: Bitstring)
    requires d.at == MtfBits(use) && 1 <= d.y.zn <= LONGEST && v < Pow2(d.y.zn)
    ensures Comes(Goto(d), ToBits(v, d.y.zn) + rest, CheckCode(d.(y := d.y.(zvec := v)), use), rest)
  {
    Reads(d, v, d.y.zn, rest);
  }

  /** A written code is read back as its symbol. */
  lemma ReadCode(d: D, use: Use, len: seq<nat>, a: nat, i: nat, rest: Bitstring) returns (e: D)
    requires d.at == MtfBits(use) && Reading(d, len, a) && d.y.zn == MinOf(len) && i < a && Code(len, i) < Pow2(len[i])
    ensures e == d.(at := e.at, y := d.y.(zn := e.y.zn, zvec := e.y.zvec))
    ensures Comes(Goto(d), CodeBits(len, i) + rest, OnSymbol(e, use, i), rest)
  {
    var lo, v := MinOf(len), Shr(Code(len, i), len[i] - MinOf(len));
    CodeHead(len, a, i, rest);
    FirstBitsRead(d, use, v, CodeBits(len, i)[lo..] + rest);
    var f := StartsReading(d, len, a, v);
    e := CodeOn(f, use, len, a, i, rest);
  }

  lemma StartsReading(d: D, len: seq<nat>, a: nat, v: nat) returns (f: D)
    requires Reading(d, len, a)
    ensures f == d.(y := d.y.(zvec := v)) && Reading(f, len, a) && f.y.zn == d.y.zn && f.y.zvec == v
  {
    f := d.(y := d.y.(zvec := v));
  }

  /** The first read of a code takes as many bits as the shortest code has. */
  lemma CodeHead(len: seq<nat>, a: nat, i: nat, rest: Bitstring)
    requires GoodLengths(len, a) && i < a && Code(len, i) < Pow2(len[i])
    ensures 1 <= MinOf(len) <= LONGEST && MinOf(len) <= len[i]
    ensures var v := Shr(Code(len, i), len[i] - MinOf(len));
            v < Pow2(MinOf(len))
              && CodeBits(len, i) + rest == ToBits(v, MinOf(len)) + (CodeBits(len, i)[MinOf(len)..] + rest)
  {
    GroupTables(len, a);
    assert MinOf(len) <= len[i];
    HeadOfBits(Code(len, i), len[i], MinOf(len), rest);
  }

  lemma HeadOfBits(c: nat, n: nat, lo: nat, rest: Bitstring)
    requires c < Pow2(n) && lo <= n
    ensures Shr(c, n - lo) < Pow2(lo) && ToBits(c, n) + rest == ToBits(Shr(c, n - lo), lo) + (ToBits(c, n)[lo..] + rest)
  {
    PrefixBits(c, n, lo);
    ShrBound(c, n, lo);
    var bits := ToBits(c, n);
    assert bits == bits[..lo] + bits[lo..];
    assert bits[..lo] + bits[lo..] + rest == bits[..lo] + (bits[lo..] + rest);
  }

  // ---- what the symbols decode to ----

  predicate IsDigit(sym: int) { sym == RUNA || sym == RUNB }

  /** Inside a run, with es + 1 of it known and the next digit weighing n, the symbols sy decode to v. */
  ghost predicate RunWill(l: seq<int>, out: seq<int>, es: int, n: int, sy: seq<int>, m: nat, limit: nat, v: seq<int>) {
    && 0 < m <= 256 == |l| && Symbols(sy, m) && sy != [] && n > 0 && es >= -1
    && if IsDigit(sy[0]) then
         var r := ReadRun(sy, es, n);
         r.RunOf? && |out| + r.es <= limit
           && Decode(l, sy[r.used..], m, limit, out + Rle.Repeat(l[0], r.es)) == Values(v)
       else |out| + es + 1 <= limit && Decode(l, sy, m, limit, out + Rle.Repeat(l[0], es + 1)) == Values(v)
  }

  ghost predicate Will(y: Syms, use: Use, sy: seq<int>, m: nat, limit: nat, v: seq<int>) {
    if use == InRun then RunWill(y.l, y.out, y.es, y.n, sy, m, limit, v)
    else 0 < m <= 256 == |y.l| && Symbols(sy, m) && Decode(y.l, sy, m, limit, y.out) == Values(v)
  }

  lemma DigitWill(l: seq<int>, out: seq<int>, es: int, n: int, sy: seq<int>, m: nat, limit: nat, v: seq<int>)
    requires RunWill(l, out, es, n, sy, m, limit, v) && IsDigit(sy[0])
    ensures n < RUN_LIMIT && RunWill(l, out, es + (if sy[0] == RUNA then n else 2 * n), 2 * n, sy[1..], m, limit, v)
  {
    var t, e := sy[1..], es + if sy[0] == RUNA then n else 2 * n;
    var r := ReadRun(sy, es, n);
    if |sy| > 1 && IsDigit(sy[1]) {
      var q := ReadRun(t, e, 2 * n);
      assert r == RunOf(q.es, q.used + 1);
      assert t[q.used..] == sy[r.used..];
    } else {
      assert r == RunOf(e + 1, 1);
    }
  }

  lemma FirstDigitWill(l: seq<int>, out: seq<int>, sy: seq<int>, m: nat, limit: nat, v: seq<int>)
    requires 0 < m <= 256 == |l| && Symbols(sy, m) && sy != [] && IsDigit(sy[0])
      && Decode(l, sy, m, limit, out) == Values(v)
    ensures RunWill(l, out, -1, 1, sy, m, limit, v)
  {
  }

  lemma RunEndWill(y: Syms, sy: seq<int>, m: nat, limit: nat, v: seq<int>)
    requires Will(y, InRun, sy, m, limit, v) && !IsDigit(sy[0])
    ensures |y.out| + y.es + 1 <= limit && Will(RunOut(y), AfterSym, sy, m, limit, v)
  {
  }

  lemma MoveWill(y: Syms, sy: seq<int>, m: nat, limit: nat, v: seq<int>)
    requires Will(y, AfterSym, sy, m, limit, v) && sy != [] && !IsDigit(sy[0]) && sy[0] != m + 1
    ensures |y.out| < limit && 2 <= sy[0] <= m
    ensures Will(y.(out := y.out + [y.l[sy[0] - 1]], l := MoveToFront(y.l, sy[0] - 1)), AfterSym, sy[1..], m, limit, v)
  {
  }

  /** Only the fields a symbol may change have changed. */
  ghost predicate SameBlock(d: D, e: D) {
    e == d.(at := e.at, y := e.y) && e.y.groups == d.y.groups && e.y.groupNo == d.y.groupNo
      && e.y.groupPos == d.y.groupPos
  }

  lemma DispatchWill(d: D, sy: seq<int>, m: nat, limit: nat, v: seq<int>) returns (fin: bool, e: D, use2: Use)
    requires NInUse(d) == m && Limit(d) == limit && Will(d.y, AfterSym, sy, m, limit, v)
    ensures sy != [] && SameBlock(d, e) && (fin <==> sy[0] == m + 1)
    ensures if fin then Dispatch(d, sy[0]) == BlockDone(e) && e.y.out == v
            else Dispatch(d, sy[0]) == StartSym(e, use2) && Will(e.y, use2, sy[1..], m, limit, v)
  {
    fin, e, use2 := sy[0] == m + 1, d, AfterSym;
    if !fin {
      if IsDigit(sy[0]) {
        FirstDigitWill(d.y.l, d.y.out, sy, m, limit, v);
        DigitWill(d.y.l, d.y.out, -1, 1, sy, m, limit, v);
        e := d.(y := d.y.(es := -1 + (if sy[0] == RUNA then 1 else 2), n := 2));
        use2 := InRun;
      } else {
        MoveWill(d.y, sy, m, limit, v);
        e := d.(y := d.y.(out := d.y.out + [d.y.l[sy[0] - 1]], l := MoveToFront(d.y.l, sy[0] - 1)));
      }
    }
  }

  lemma InRunWill(d: D, sy: seq<int>, m: nat, limit: nat, v: seq<int>) returns (e: D)
    requires Will(d.y, InRun, sy, m, limit, v) && IsDigit(sy[0])
    ensures SameBlock(d, e) && sy[0] != m + 1 && OnSymbol(d, InRun, sy[0]) == StartSym(e, InRun)
      && Will(e.y, InRun, sy[1..], m, limit, v)
  {
    DigitWill(d.y.l, d.y.out, d.y.es, d.y.n, sy, m, limit, v);
    e := d.(y := d.y.(es := d.y.es + (if sy[0] == RUNA then d.y.n else 2 * d.y.n), n := d.y.n * 2));
  }

  lemma SymbolWill(d: D, use: Use, sy: seq<int>, m: nat, limit: nat, v: seq<int>) returns (fin: bool, e: D, use2: Use)
    requires NInUse(d) == m && Limit(d) == limit && Will(d.y, use, sy, m, limit, v)
    ensures sy != [] && SameBlock(d, e) && (fin <==> sy[0] == m + 1)
    ensures if fin then OnSymbol(d, use, sy[0]) == BlockDone(e) && e.y.out == v
            else OnSymbol(d, use, sy[0]) == StartSym(e, use2) && Will(e.y, use2, sy[1..], m, limit, v)
  {
    if use == InRun && IsDigit(sy[0]) {
      fin, use2 := false, InRun;
      e := InRunWill(d, sy, m, limit, v);
    } else if use == InRun {
      RunEndWill(d.y, sy, m, limit, v);
      fin, e, use2 := DispatchWill(d.(y := RunOut(d.y)), sy, m, limit, v);
    } else {
      fin, e, use2 := DispatchWill(d, sy, m, limit, v);
    }
  }

  // ---- all the symbols of a block ----

  /** The tables, the table chosen for each group of fifty, and the symbols. */
  datatype Coded = Coded(lens: seq<seq<nat>>, sel: seq<int>, syms: seq<int>, m: nat)

  /** The lengths make a code that fits, every symbol has a group, and only the last symbol ends the block. */
  ghost predicate GoodCoded(k: Coded) {
    && 0 < k.m <= 256 && k.syms != [] && Symbols(k.syms, k.m) && |k.syms| <= G_SIZE * |k.sel|
    && (forall t {:trigger k.lens[t]} ::
         0 <= t < |k.lens| ==> GoodLengths(k.lens[t], k.m + 2) && Kraft(k.lens[t], LONGEST))
    && (forall g {:trigger k.sel[g]} :: 0 <= g < |k.sel| ==> 0 <= k.sel[g] < |k.lens|)
    && (forall x {:trigger k.syms[x]} :: 0 <= x < |k.syms| - 1 ==> k.syms[x] != k.m + 1)
  }

  /** The machine before symbol x. */
  ghost predicate Before(k: Coded, d: D, x: nat) {
    && d.s.selector == k.sel && d.s.nSelectors == |k.sel| && d.y.groups == GroupsOf(k.lens) && NInUse(d) == k.m
    && if x % G_SIZE == 0 then d.y.groupPos == 0 && d.y.groupNo == x / G_SIZE - 1
       else d.y.groupPos == G_SIZE - x % G_SIZE && d.y.groupNo == x / G_SIZE
  }

  ghost function LenAt(k: Coded, x: nat): seq<nat>
    requires GoodCoded(k) && x < |k.syms|
  {
    GroupIndex(x, |k.sel|);
    k.lens[k.sel[x / G_SIZE]]
  }

  lemma GroupIndex(x: nat, groups: nat)
    requires x < G_SIZE * groups
    ensures x / G_SIZE < groups
  {
  }

  lemma GroupNext(x: nat)
    ensures (x + 1) % G_SIZE == 0 <==> x % G_SIZE == G_SIZE - 1
    ensures (x + 1) % G_SIZE == 0 ==> (x + 1) / G_SIZE == x / G_SIZE + 1
    ensures (x + 1) % G_SIZE != 0 ==> (x + 1) / G_SIZE == x / G_SIZE && (x + 1) % G_SIZE == x % G_SIZE + 1
  {
  }

  /** Starting symbol x picks its group's table. */
  lemma Started(k: Coded, d: D, use: Use, x: nat) returns (f: D)
    requires GoodCoded(k) && x < |k.syms| && Before(k, d, x)
    ensures f ==
      d.(at := MtfBits(use),
        y := d.y.(groupNo := x / G_SIZE, groupPos := G_SIZE - 1 - x % G_SIZE, zn := MinOf(LenAt(k, x))))
    ensures StartSym(d, use) == Goto(f) && Reading(f, LenAt(k, x), k.m + 2) && Before(k, f, x + 1)
  {
    SymIn(k, x);
    GroupNext(x);
    var y, len := d.y.(groupNo := x / G_SIZE, groupPos := G_SIZE - 1 - x % G_SIZE), LenAt(k, x);
    GroupPicked(k, y, x);
    f := d.(at := MtfBits(use), y := y.(zn := MinOf(len)));
    GroupPicked(k, f.y, x);
  }

  lemma GroupPicked(k: Coded, y: Syms, x: nat)
    requires GoodCoded(k) && x < |k.syms| && y.groups == GroupsOf(k.lens) && y.groupNo == x / G_SIZE
    ensures GroupNow(k.sel, y) == GroupOf(LenAt(k, x)) && GroupOf(LenAt(k, x)).minLen == MinOf(LenAt(k, x))
  {
    SymIn(k, x);
  }

  lemma SymIn(k: Coded, x: nat)
    requires GoodCoded(k) && x < |k.syms|
    ensures x / G_SIZE < |k.sel| && 0 <= k.sel[x / G_SIZE] < |k.lens| && LenAt(k, x) == k.lens[k.sel[x / G_SIZE]]
    ensures GoodLengths(LenAt(k, x), k.m + 2) && Kraft(LenAt(k, x), LONGEST) && 0 <= k.syms[x] < |LenAt(k, x)|
  {
    GroupIndex(x, |k.sel|);
  }

  lemma SymSplit(k: Coded, x: nat, rest: Bitstring)
    requires GoodCoded(k) && x < |k.syms|
    ensures 0 <= k.syms[x] < |LenAt(k, x)|
    ensures SymBits(k.lens, k.sel, k.syms, x) + rest ==
      CodeBits(LenAt(k, x), k.syms[x]) + (SymBits(k.lens, k.sel, k.syms, x + 1) + rest)
    ensures x + 1 == |k.syms| ==> SymBits(k.lens, k.sel, k.syms, x + 1) + rest == rest
  {
    SymStep(k, x);
    Assoc(CodeBits(LenAt(k, x), k.syms[x]), SymBits(k.lens, k.sel, k.syms, x + 1), rest);
  }

  lemma SymStep(k: Coded, x: nat)
    requires GoodCoded(k) && x < |k.syms|
    ensures 0 <= k.syms[x] < |LenAt(k, x)|
    ensures SymBits(k.lens, k.sel, k.syms, x) ==
      CodeBits(LenAt(k, x), k.syms[x]) + SymBits(k.lens, k.sel, k.syms, x + 1)
    ensures x + 1 == |k.syms| ==> SymBits(k.lens, k.sel, k.syms, x + 1) == []
  {
    SymIn(k, x);
  }

  /** One symbol: read and acted on. */
  lemma OneSymbol(k: Coded, d: D, use: Use, x: nat, limit: nat, v: seq<int>, more: Bitstring)
      returns (fin: bool, e: D, use2: Use)
    requires GoodCoded(k) && x < |k.syms| && Before(k, d, x) && Limit(d) == limit
      && Will(d.y, use, k.syms[x..], k.m, limit, v)
    ensures 0 <= k.syms[x] < |LenAt(k, x)| && e == d.(at := e.at, y := e.y) && (fin <==> k.syms[x] == k.m + 1)
    ensures Comes(StartSym(d, use), CodeBits(LenAt(k, x), k.syms[x]) + more,
      if fin then BlockDone(e) else StartSym(e, use2), more)
    ensures if fin then e.y.out == v else Before(k, e, x + 1) && Will(e.y, use2, k.syms[x + 1..], k.m, limit, v)
  {
    SymSplit(k, x, more);
    var len, sym := LenAt(k, x), k.syms[x];
    var f := Started(k, d, use, x);
    SymIn(k, x);
    CodeFits(len, LONGEST, sym);
    var g := ReadCode(f, use, len, k.m + 2, sym, more);
    assert k.syms[x..][0] == sym && k.syms[x..][1..] == k.syms[x + 1..];
    fin, e, use2 := SymbolWill(g, use, k.syms[x..], k.m, limit, v);
  }

  /** The machine reads all symbols and ends the block with what they decode to. */
  lemma {:induction false} ReadSymbols(k: Coded, d: D, use: Use, x: nat, limit: nat, v: seq<int>, rest: Bitstring)
      returns (e: D)
    requires GoodCoded(k) && x < |k.syms| && Before(k, d, x) && Limit(d) == limit
      && Will(d.y, use, k.syms[x..], k.m, limit, v)
    ensures e == d.(at := e.at, y := e.y) && e.y.out == v
    ensures Comes(StartSym(d, use), SymBits(k.lens, k.sel, k.syms, x) + rest, BlockDone(e), rest)
    decreases |k.syms| - x
  {
    SymSplit(k, x, rest);
    var more := SymBits(k.lens, k.sel, k.syms, x + 1) + rest;
    assert x + 1 < |k.syms| ==> k.syms[x] != k.m + 1;
    var fin, use2;
    fin, e, use2 := OneSymbol(k, d, use, x, limit, v, more);
    if !fin {
      WillNonEmpty(e.y, use2, k.syms[x + 1..], k.m, limit, v);
      e := ReadSymbols(k, e, use2, x + 1, limit, v, rest);
    }
  }

  lemma WillNonEmpty(y: Syms, use: Use, sy: seq<int>, m: nat, limit: nat, v: seq<int>)
    requires Will(y, use, sy, m, limit, v)
    ensures sy != []
  {
  }
}
