/** The two decoders side by side: SMALL, which keeps T in place and reverses it along one cycle, puts out what FAST
    puts out, for every column a stream can deliver. */
module FastSmall {
  import opened Rotations
  import opened Counting
  import opened Bwt
  import opened InverseBwt
  import opened Rle
  import opened Unpack
  import D = Decompressor

  /** The column of a block, as it was received with origPtr. */
  ghost function Received(l: seq<Byte>, origPtr: nat): (c: Column)
    requires origPtr < |l|
    ensures IsColumn(c) && c.l == l
  {
    Column(l, TInverse(l), TInverse(l)[origPtr])
  }

  /** unzftab, gathered while the column is decoded. */
  method CountBytes(l: seq<Byte>) returns (unzftab: array<int>)
    ensures fresh(unzftab) && unzftab.Length == 256 && forall c :: 0 <= c < 256 ==> unzftab[c] == Occ(l, c, |l|)
  {
    unzftab := new int[256](_ => 0);
    for i := 0 to |l|
      invariant forall c {:trigger unzftab[c]} :: 0 <= c < 256 ==> unzftab[c] == Occ(l, c, i)
    {
      unzftab[l[i]] := unzftab[l[i]] + 1;
    }
  }

  /** T is built over the received bytes and reversed along the cycle of origPtr. */
  method BuildSmall(l: seq<Byte>, origPtr: nat) returns (ll: SmallCells, cftab: array<int>, ghost cycle: set<int>)
    requires origPtr < |l| <= 900000
    ensures fresh(ll) && ll.Valid() && origPtr in cycle && SmallFor(ll.cells, cftab[..], Received(l, origPtr), cycle)
  {
    ghost var inv := TInverse(l);
    var unzftab := CountBytes(l);
    cftab := MakeCftab(unzftab, l);
    var copy := new int[257](i requires 0 <= i < 257 reads cftab => cftab[i]);
    assert copy[..] == cftab[..];
    ll := new SmallCells(l);
    BuildT(ll, copy, |l|, l);
    forall p {:trigger ll.cells[p]} | 0 <= p < |l| ensures 0 <= ll.cells[p] < |l| && inv[ll.cells[p]] == p {
      assert ll.cells[p] == T(l, p);
      TBounds(l, p);
      InverseOfT(l, inv, p);
    }
    cycle := ReverseCycle(ll, origPtr, |l|, inv);
  }

  /** The SMALL vector of a block, and the place where its output begins. */
  method SetUpSmall(l: seq<Byte>, origPtr: nat)
      returns (ll: SmallCells, cftab: array<int>, p: Place, ghost cycle: set<int>)
    requires origPtr < |l| <= 900000
    ensures ll.Valid() && p == Begin(Received(l, origPtr)).(row := p.row)
    ensures FeedsSmall(ll, cftab[..], Received(l, origPtr), cycle, Fetches(Received(l, origPtr)), 1, p.row)
  {
    ghost var c := Received(l, origPtr);
    ghost var b := Fetches(c);
    ll, cftab, cycle := BuildSmall(l, origPtr);
    var k0, row := FetchSmall(ll, cftab, origPtr, c, cycle, b, 0);
    p := Place(0, 0, k0, 1, row);
  }

  /** Both ways from a received column to the unsorted block. */
  method UnsortBoth(l: seq<Byte>, origPtr: nat) returns (fast: seq<Byte>, small: seq<Byte>)
    requires origPtr < |l| <= 900000
    ensures fast == small == Unsort(l, origPtr)
  {
    ghost var inv := TInverse(l);
    var tt := new int[|l|];
    var unzftab := D.FillColumn(tt, l);
    var cftab := MakeCftab(unzftab, l);
    BuildFast(tt, cftab, |l|, l, inv);
    fast := UnsortFast(tt, origPtr, |l|, |l|, l, inv);
    var ll, cf, cycle := BuildSmall(l, origPtr);
    small := UnsortSmall(ll, cf, origPtr, |l|, |l|, l, inv, cycle);
  }

  /** A block through FAST in calls with some rooms, and through SMALL in calls with others: unless the block ends in
      the middle of a run, both put out as much of it as there is room for, and neither complains. */
  method FastAndSmall(l: seq<Byte>, origPtr: nat, rooms: seq<nat>, others: seq<nat>)
      returns (fast: seq<int>, small: seq<int>, fastCorrupt: bool, smallCorrupt: bool)
    requires origPtr < |l| <= 900000
    ensures fast == Delivered(Received(l, origPtr), rooms)
      && small == Prefix(BlockOut(Received(l, origPtr)), Total(others))
    ensures fastCorrupt <==> EndsInRun(Received(l, origPtr)) && Total(rooms) >= |BlockOut(Received(l, origPtr))|
    ensures smallCorrupt <==> EndsInRun(Received(l, origPtr)) && Total(others) > |BlockOut(Received(l, origPtr))|
    ensures Total(rooms) == Total(others) && !EndsInRun(Received(l, origPtr)) ==>
      fast == small && !fastCorrupt && !smallCorrupt
  {
    ghost var c := Received(l, origPtr);
    var tt := new int[|l|];
    var first := D.SetUp(tt, l, origPtr, c);
    fast, fastCorrupt := FastAll(tt, rooms, |l|, |l|, first, c);
    small, smallCorrupt := SmallAll(l, origPtr, others);
    CutsMatterWhenCorrupt(c);
  }

  /** The whole block through SMALL, over any sequence of calls. */
  method SmallAll(l: seq<Byte>, origPtr: nat, rooms: seq<nat>) returns (out: seq<int>, corrupt: bool)
    requires origPtr < |l| <= 900000
    ensures out == Prefix(BlockOut(Received(l, origPtr)), Total(rooms))
    ensures corrupt <==> EndsInRun(Received(l, origPtr)) && Total(rooms) > |BlockOut(Received(l, origPtr))|
  {
    ghost var c := Received(l, origPtr);
    ghost var b := Fetches(c);
    var ll, cftab, p, cycle := SetUpSmall(l, origPtr);
    BeginLeft(c);
    OwesOpens(c, p, BlockOut(c), EndsAt(b, |l|, 0));
    out, corrupt := SmallLoop(ll, cftab, rooms, |l|, p, c, cycle, b, BlockOut(c), EndsAt(b, |l|, 0));
  }
}
