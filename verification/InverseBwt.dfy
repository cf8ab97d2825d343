/** The two in-place inverse transforms of the decompressor: FAST packs the T^-1 vector beside
    the received bytes, SMALL keeps T in 20-bit cells and reverses it along one cycle. */
module InverseBwt {
  import opened Permutations
  import opened Rotations
  import opened Counting
  import opened Bwt

  /** cftab[c] is where the rows starting with byte c begin. */
  ghost predicate IsCftab(l: seq<Byte>, cftab: seq<int>) {
    |cftab| == 257 && forall c :: 0 <= c <= 256 ==> cftab[c] == Less(l, c, |l|)
  }

  /** Turns the byte counts gathered while decoding into cftab. */
  method MakeCftab(unzftab: array<int>, ghost l: seq<Byte>) returns (cftab: array<int>)
    requires unzftab.Length == 256
    requires forall c :: 0 <= c < 256 ==> unzftab[c] == Occ(l, c, |l|)
    ensures fresh(cftab) && IsCftab(l, cftab[..])
  {
    cftab := new int[257];
    cftab[0] := 0;
    for i := 1 to 257
      invariant cftab[0] == 0
      invariant forall c {:trigger cftab[c]} :: 1 <= c < i ==> cftab[c] == Occ(l, c - 1, |l|)
    {
      cftab[i] := unzftab[i - 1];
    }
    SumUp(cftab, l);
  }

  method SumUp(cftab: array<int>, ghost l: seq<Byte>)
    requires cftab.Length == 257 && cftab[0] == 0 && forall c {:trigger cftab[c]} :: 1 <= c < 257 ==>
      cftab[c] == Occ(l, c - 1, |l|)
    modifies cftab
    ensures IsCftab(l, cftab[..])
  {
    for i := 1 to 257
      invariant forall c {:trigger cftab[c]} :: 0 <= c < i ==> cftab[c] == Less(l, c, |l|)
      invariant forall c {:trigger cftab[c]} :: i <= c < 257 ==> cftab[c] == Occ(l, c - 1, |l|)
    {
      cftab[i] := cftab[i] + cftab[i - 1];
    }
  }

  /** The upper 24 bits of each FAST cell are T^-1, its low byte the received byte. */
  ghost predicate FastCells(tt: seq<int>, l: seq<Byte>, inv: seq<int>) {
    && |l| == |inv| <= |tt|
    && (forall p :: 0 <= p < |l| ==> 0 <= inv[p] < |l|)
    && forall p {:trigger tt[p]} :: 0 <= p < |l| ==> tt[p] == l[p] + 256 * inv[p]
  }

  /** Takes a FAST cell apart. */
  method SplitCell(cell: int, ghost c: Byte, ghost x: int) returns (low: Byte, high: int)
    ensures cell == c + 256 * x ==> low == c && high == x
  {
    low, high := cell % 256, cell / 256;
  }

  /** One step of the FAST construction knows the slot of row i and that it is still clear. */
  lemma SlotOf(l: seq<Byte>, inv: seq<int>, i: nat, pos: int)
    requires IsTInverse(l, inv) && i < |l| && pos == Less(l, l[i], |l|) + Occ(l, l[i], i)
    ensures 0 <= pos < |l| && inv[pos] == i
    ensures forall p :: 0 <= p < |l| && p != pos ==> inv[p] != i
  {
    InverseOfT(l, inv, i);
    forall p | 0 <= p < |l| && p != pos ensures inv[p] != i { assert T(l, inv[p]) == p; }
  }

  /** cftab[c] has moved past the rows of byte c among the first i. */
  ghost predicate Moved(cftab: seq<int>, l: seq<Byte>, i: nat) {
    |cftab| == 257 && i <= |l| && forall c {:trigger cftab[c]} :: 0 <= c < 256 ==>
      cftab[c] == Less(l, c, |l|) + Occ(l, c, i)
  }

  /** The slot of row i, whose byte is uc. */
  method TakeSlot(cftab: array<int>, uc: Byte, ghost l: seq<Byte>, ghost i: nat) returns (pos: int)
    requires i < |l| && uc == l[i] && Moved(cftab[..], l, i)
    modifies cftab
    ensures pos == Less(l, l[i], |l|) + Occ(l, l[i], i) && Moved(cftab[..], l, i + 1)
  {
    ghost var was := cftab[..];
    pos := cftab[uc];
    assert pos == was[uc];
    cftab[uc] := pos + 1;
    forall c {:trigger cftab[..][c]} | 0 <= c < 256 ensures cftab[..][c] == Less(l, c, |l|) + Occ(l, c, i + 1) {
      assert cftab[..][c] == if c == uc then pos + 1 else was[c];
    }
  }

  /** FAST: the cells holding the received bytes get T^-1 in their upper 24 bits. */
  method BuildFast(tt: array<int>, cftab: array<int>, nblock: nat, ghost l: seq<Byte>, ghost inv: seq<int>)
    requires tt != cftab && |l| == nblock <= tt.Length && tt[..nblock] == l && IsCftab(l, cftab[..])
    requires IsTInverse(l, inv)
    modifies tt, cftab
    ensures FastCells(tt[..], l, inv)
  {
    var n := nblock;
    var i := 0;
    assert forall p :: 0 <= p < n ==> tt[p] == tt[..n][p] == l[p];
    while i < n
      invariant 0 <= i <= n && Moved(cftab[..], l, i)
      invariant forall p {:trigger tt[p]} :: 0 <= p < n ==> tt[p] == l[p] + if inv[p] < i then 256 * inv[p] else 0
    {
      var uc, high := SplitCell(tt[i], l[i], if inv[i] < i then inv[i] else 0);
      var pos := TakeSlot(cftab, uc, l, i);
      SlotOf(l, inv, i, pos);
      // the upper bits are still clear, so or-ing i in adds it
      tt[pos] := tt[pos] + 256 * i;
      i := i + 1;
    }
  }

  /** One BZ_GET_FAST; maxBlock is 100000 * blockSize100k. */
  method GetFast(tt: array<int>, tPos: nat, maxBlock: nat, ghost l: seq<Byte>, ghost inv: seq<int>)
      returns (corrupt: bool, ch: Byte, next: int)
    requires maxBlock <= tt.Length
    ensures corrupt <==> tPos >= maxBlock
    ensures !corrupt && FastCells(tt[..], l, inv) && tPos < |l| ==> ch == l[tPos] && next == inv[tPos]
  {
    corrupt, ch, next := tPos >= maxBlock, 0, 0;
    if !corrupt {
      ch, next := SplitCell(tt[tPos], if tPos < |l| then l[tPos] else 0, if tPos < |inv| then inv[tPos] else 0);
      assert tt[tPos] == tt[..][tPos];
    }
  }

  /** nblock steps of BZ_GET_FAST from tt[origPtr] emit the unsorted block. */
  method UnsortFast(tt: array<int>, origPtr: nat, nblock: nat, maxBlock: nat, ghost l: seq<Byte>, ghost inv: seq<int>)
      returns (out: seq<Byte>)
    requires FastCells(tt[..], l, inv) && origPtr < |l| == nblock <= maxBlock <= tt.Length
    ensures out == Walk(l, inv, inv[origPtr], nblock)
  {
    assert tt[origPtr] == tt[..][origPtr];
    var uc, tPos := SplitCell(tt[origPtr], l[origPtr], inv[origPtr]);
    out := [];
    var k := 0;
    while k < nblock
      invariant 0 <= k <= nblock && 0 <= tPos < nblock
      invariant Walk(l, inv, inv[origPtr], nblock) == out + Walk(l, inv, tPos, nblock - k)
    {
      var corrupt, ch, next := GetFast(tt, tPos, maxBlock, l, inv);
      WalkOn(out, l, inv, tPos, nblock - k);
      out, tPos, k := out + [ch], next, k + 1;
    }
    assert out + [] == out;
  }

  lemma WalkOn(out: seq<Byte>, l: seq<Byte>, inv: seq<int>, p: nat, m: nat)
    requires m > 0 && p < |l| == |inv| && forall p :: 0 <= p < |l| ==> 0 <= inv[p] < |l|
    ensures out + Walk(l, inv, p, m) == (out + [l[p]]) + Walk(l, inv, inv[p], m - 1)
  {
  }

  /** GET_LL4: the upper four bits of cell i share a byte with a neighbour's. */
  function Nibble(cell: int, i: nat): int {
    if i % 2 == 0 then cell % 16 else cell / 16 % 16
  }

  /** SET_LL4. */
  function WithNibble(cell: int, i: nat, n: int): int {
    if i % 2 == 0 then cell / 16 * 16 + n else cell % 16 + 16 * n
  }

  lemma NibbleKept(cell: int, i: nat, j: nat, n: int)
    requires 0 <= cell < 256 && 0 <= n < 16
    ensures 0 <= WithNibble(cell, i, n) < 256
    ensures Nibble(WithNibble(cell, i, n), i) == n
    ensures i % 2 != j % 2 ==> Nibble(WithNibble(cell, i, n), j) == Nibble(cell, j)
  {
  }

  /** The SMALL vector: 20-bit cells kept as 16 bits in ll16 and a nibble in ll4. */
  class SmallCells {
    const ll16: array<int>
    const ll4: array<int>
    ghost var cells: seq<int>

    ghost predicate Valid()
      reads this, ll16, ll4
    {
      && ll16 != ll4 && |cells| <= ll16.Length && (|cells| + 1) / 2 <= ll4.Length
      && (forall i {:trigger ll4[i]} :: 0 <= i < ll4.Length ==> 0 <= ll4[i] < 256)
      && forall i {:trigger ll16[i]} :: 0 <= i < |cells| ==> cells[i] == ll16[i] + 65536 * Nibble(ll4[i / 2], i)
    }

    /** A received column: the bytes in ll16, nothing yet in ll4. */
    constructor (l: seq<Byte>)
      ensures Valid() && fresh(ll16) && fresh(ll4) && cells == l
    {
      ll16 := new int[|l|](i requires 0 <= i < |l| => l[i]);
      ll4 := new int[(|l| + 1) / 2](i => 0);
      cells := l;
    }

    /** GET_LL. */
    method Get(i: nat) returns (v: int)
      requires Valid() && i < |cells|
      ensures v == cells[i]
    {
      v := ll16[i] + 65536 * Nibble(ll4[i / 2], i);
    }

    /** SET_LL: a cell takes any 20-bit value and its neighbours keep theirs. */
    method Set(i: nat, v: nat)
      requires Valid() && i < |cells| && v < 0x100000
      modifies this, ll16, ll4
      ensures Valid() && cells == old(cells)[i := v]
    {
      ll16[i] := v % 65536;
      ll4[i / 2] := WithNibble(ll4[i / 2], i, v / 65536);
      forall j | 0 <= j < |cells|
        ensures 0 <= ll4[i / 2] < 256
        ensures Nibble(ll4[j / 2], j) == if j == i then v / 65536 else old(Nibble(ll4[j / 2], j))
      {
        NibbleKept(old(ll4[i / 2]), i, j, v / 65536);
      }
      cells := cells[i := v];
    }
  }

  /** SMALL: the T vector replaces the received bytes, cell by cell. */
  method BuildT(ll: SmallCells, cftabCopy: array<int>, nblock: nat, ghost l: seq<Byte>)
    requires ll.Valid() && nblock == |l| <= 900000 && ll.cells == l
    requires cftabCopy != ll.ll16 && cftabCopy != ll.ll4 && IsCftab(l, cftabCopy[..])
    modifies ll, ll.ll16, ll.ll4, cftabCopy
    ensures ll.Valid() && |ll.cells| == nblock
    ensures forall p :: 0 <= p < nblock ==> ll.cells[p] == T(l, p)
  {
    var i := 0;
    while i < nblock
      invariant 0 <= i <= nblock && ll.Valid() && |ll.cells| == nblock && Moved(cftabCopy[..], l, i)
      invariant forall p :: i <= p < nblock ==> ll.cells[p] == l[p]
      invariant forall p :: 0 <= p < i ==> ll.cells[p] == T(l, p)
    {
      var uc := ll.Get(i);
      TBounds(l, i);
      var pos := TakeSlot(cftabCopy, uc, l, i);
      ll.Set(i, pos);
      i := i + 1;
    }
  }

  /** Pointer reversal: follows T from origPtr round its cycle, turning each link back. It comes
      back to origPtr, and then every cell on the cycle holds T^-1. */
  method ReverseCycle(ll: SmallCells, origPtr: nat, nblock: nat, ghost inv: seq<int>) returns (ghost cycle: set<int>)
    requires ll.Valid() && origPtr < nblock == |ll.cells| == |inv| <= 900000
    requires forall p :: 0 <= p < nblock ==> 0 <= ll.cells[p] < nblock && inv[ll.cells[p]] == p
    modifies ll, ll.ll16, ll.ll4
    ensures ll.Valid() && |ll.cells| == nblock && origPtr in cycle
    ensures forall x :: x in cycle ==> 0 <= x < nblock && inv[x] in cycle
    ensures forall x :: x in cycle ==> ll.cells[x] == inv[x]
  {
    ghost var t := ll.cells;
    var i: nat := origPtr;
    var j := ll.Get(i);
    cycle := {};
    ghost var all := Below(nblock);
    var first := true;
    while first || i != origPtr
      invariant ll.Valid() && |ll.cells| == nblock && 0 <= i < nblock && j == t[i]
      invariant first ==> i == origPtr && cycle == {}
      invariant !first ==> i in cycle
      invariant cycle <= all
      invariant forall x :: x in cycle ==> inv[x] == origPtr || (inv[x] in cycle && inv[x] != i)
      invariant forall p {:trigger ll.cells[p]} ::
        0 <= p < nblock ==> ll.cells[p] == if p in cycle then inv[p] else t[p]
      decreases |all - cycle|
    {
      assert inv[t[i]] == i;
      assert j !in cycle;
      var tmp := ll.Get(j);
      ll.Set(j, i);
      assert all - (cycle + {j}) == (all - cycle) - {j};
      cycle := cycle + {j};
      i, j, first := j, tmp, false;
    }
  }

  /** BZ2_indexIntoF: binary search of cftab for the first-column byte of row indx. */
  method IndexIntoF(indx: nat, cftab: array<int>, ghost l: seq<Byte>, ghost inv: seq<int>) returns (ch: Byte)
    requires IsCftab(l, cftab[..]) && indx < |l| && IsTInverse(l, inv)
    ensures ch == l[inv[indx]]
  {
    var nb, na := 0, 256;
    LessAll(l, 256, |l|);
    assert forall c :: 0 <= c <= 256 ==> cftab[c] == cftab[..][c];
    while na - nb != 1
      invariant 0 <= nb < na <= 256
      invariant cftab[nb] <= indx < cftab[na]
    {
      var mid := (nb + na) / 2;
      if indx >= cftab[mid] { nb := mid; } else { na := mid; }
    }
    FirstColumn(l, inv, indx, nb);
    ch := nb;
  }

  lemma FirstColumn(l: seq<Byte>, inv: seq<int>, p: nat, c: nat)
    requires p < |l| && c < 256 && Less(l, c, |l|) <= p < Less(l, c + 1, |l|) && IsTInverse(l, inv)
    ensures l[inv[p]] == c
  {
    var d := l[inv[p]] as int;
    assert T(l, inv[p]) == p;
    TBounds(l, inv[p]);
    if d < c { LessMono(l, d + 1, c, |l|); }
    if c < d { LessMono(l, c + 1, d, |l|); }
  }

  /** nblock steps of BZ_GET_SMALL from origPtr emit what FAST emits, for every received column,
      whether or not it came from a sorted block. */
  method UnsortSmall(ll: SmallCells, cftab: array<int>, origPtr: nat, nblock: nat, maxBlock: nat,
      ghost l: seq<Byte>, ghost inv: seq<int>, ghost cycle: set<int>) returns (out: seq<Byte>)
    requires ll.Valid() && origPtr < nblock == |l| == |ll.cells| <= maxBlock
    requires IsCftab(l, cftab[..]) && IsTInverse(l, inv) && origPtr in cycle
    requires forall x :: x in cycle ==> 0 <= x < nblock && inv[x] in cycle
    requires forall x :: x in cycle ==> ll.cells[x] == inv[x]
    ensures out == Walk(l, inv, inv[origPtr], nblock)
  {
    var tPos: nat := origPtr;
    out := [];
    var k := 0;
    while k < nblock
      invariant 0 <= k <= nblock && tPos in cycle
      invariant Walk(l, inv, inv[origPtr], nblock) == out + Walk(l, inv, inv[tPos], nblock - k)
    {
      var ch := IndexIntoF(tPos, cftab, l, inv);
      out, k := out + [ch], k + 1;
      tPos := ll.Get(tPos);
    }
  }
}
