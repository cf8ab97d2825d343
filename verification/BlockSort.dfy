/** BZ2_blockSort: chooses between the two sorting algorithms and finds the original row. */
module BlockSort {
  import opened Permutations
  import opened Rotations
  import opened Bwt
  import opened MainCompare
  import Fallback = FallbackSort
  import Main = MainSort

  /** The work the main sort may do before it gives up. */
  function Budget(n: nat, wfact: int): (r: int)
    ensures 0 <= r <= 33 * n
  {
    var w := if wfact < 1 then 1 else if wfact > 100 then 100 else wfact;
    n * ((w - 1) / 3)
  }

  /** BZ2_blockSort, for every block size and work factor. */
  method Sort(ptr: array<int>, block: array<int>, quadrant: array<int>, ftab: array<int>, eclass: array<int>,
      bhtab: array<bool>, n: nat, wfact: int, ghost b: Block) returns (origPtr: int)
    requires ptr != block && ptr != quadrant && ptr != ftab && ftab != block && ftab != quadrant && block != quadrant
    requires eclass != ptr && eclass != block && n == |b| == ptr.Length == eclass.Length <= 900000
    requires n + N_OVERSHOOT <= block.Length && n + N_OVERSHOOT <= quadrant.Length && block[..n] == b
    requires ftab.Length == 65537 && n + 96 <= bhtab.Length
    modifies ptr, block, quadrant, ftab, eclass, bhtab
    ensures SortsRotations(b, ptr[..]) && block[..n] == b
    ensures 0 <= origPtr < n && ptr[origPtr] == 0
    ensures Unsort(LastColumn(b, ptr[..]), origPtr) == b
    ensures forall q, j {:trigger Rows(b, ptr[..], q, origPtr, j)} ::
      Rows(b, ptr[..], q, origPtr, j) ==> LastColumn(b, q) == LastColumn(b, ptr[..]) && (Aperiodic(b) ==> j == origPtr)
  {
    if n < 10000 {
      Fallback.Sort(block, ptr, eclass, bhtab, n, b);
    } else {
      var budget := Main.Sort(ptr, block, quadrant, ftab, n, Budget(n, wfact), b);
      if budget < 0 { Fallback.Sort(block, ptr, eclass, bhtab, n, b); }
    }
    ghost var s := ptr[..];
    ghost var at := PermHits(s, 0);
    origPtr := -1;
    for i := 0 to n
      invariant origPtr == -1 && forall k {:trigger s[k]} :: 0 <= k < i ==> s[k] != 0
    {
      assert ptr[i] == s[i];
      if ptr[i] == 0 { origPtr := i; break; }
    }
    assert origPtr != -1;  // 1003
    UnsortInvertsSort(b, s, origPtr);
    OtherOrders(b, s, origPtr);
  }

  /** What any other sorted order would have given. */
  lemma OtherOrders(b: Block, p: seq<int>, i: int)
    ensures forall q, j {:trigger Rows(b, p, q, i, j)} ::
      Rows(b, p, q, i, j) ==> LastColumn(b, q) == LastColumn(b, p) && (Aperiodic(b) ==> j == i)
  {
    forall q, j {:trigger Rows(b, p, q, i, j)} | Rows(b, p, q, i, j)
      ensures LastColumn(b, q) == LastColumn(b, p) && (Aperiodic(b) ==> j == i)
    {
      LastColumnUnique(b, p, q);
      if Aperiodic(b) { AperiodicRows(b, p, q, i, j); }
    }
  }

  // ---- what the choice of algorithm can change ----

  /** b equals none of its other rotations. */
  ghost predicate Aperiodic(b: Block) {
    forall i {:trigger Rotation(b, i)} :: 0 < i < |b| ==> Rotation(b, i) != Rotation(b, 0)
  }

  /** The rows of two sorted orders that hold rotation 0. */
  ghost predicate Rows(b: Block, p: seq<int>, q: seq<int>, i: int, j: int) {
    SortsRotations(b, p) && SortsRotations(b, q) && 0 <= i < |b| && 0 <= j < |b| && p[i] == 0 && q[j] == 0
  }

  lemma AperiodicRows(b: Block, p: seq<int>, q: seq<int>, i: int, j: int)
    requires Rows(b, p, q, i, j) && Aperiodic(b)
    ensures i == j
  {
    SortedOrdersAgree(b, p, q, i);
    assert Rotation(b, q[i]) == Rotation(b, 0);
    assert q[i] == 0;
  }

  /** Exchanging two equal rotations keeps an order sorted. */
  lemma ExchangeEqual(b: Block, p: seq<int>, i: int, j: int)
    requires SortsRotations(b, p) && 0 <= i < |b| && 0 <= j < |b| && Rotation(b, p[i]) == Rotation(b, p[j])
    ensures SortsRotations(b, p[i := p[j]][j := p[i]])
  {
    var q := p[i := p[j]][j := p[i]];
    forall x | 0 <= x < |b| ensures 0 <= q[x] < |b| && Rotation(b, q[x]) == Rotation(b, p[x]) { }
    forall x, y | 0 <= x < y < |b| ensures LexLe(Rotation(b, q[x]), Rotation(b, q[y])) {
      assert LexLe(Rotation(b, p[x]), Rotation(b, p[y]));
    }
  }

  /** A block of two equal bytes has two sorted orders, with different rows for the block itself. */
  lemma TwoOrders(x: int)
    requires 0 <= x < 256
    ensures var b: Block := [x, x]; Rows(b, [0, 1], [1, 0], 0, 1) && !Aperiodic(b)
  {
    var b: Block := [x, x];
    assert Rotation(b, 1) == Rotation(b, 0);
    forall i, j | 0 <= i < j < 2 ensures LexLe(Rotation(b, [0, 1][i]), Rotation(b, [0, 1][j])) { }
    ExchangeEqual(b, [0, 1], 0, 1);
    assert [0, 1][0 := 1][1 := 0] == [1, 0];
  }

  /** A sorted order fixes the last column. It fixes origPtr, against any other sorted order, exactly when the block is
      not periodic. */
  lemma OrigPtrUnique(b: Block, p: seq<int>)
    requires SortsRotations(b, p)
    ensures (forall q, i, j {:trigger Rows(b, p, q, i, j)} :: Rows(b, p, q, i, j) ==> i == j) <==> Aperiodic(b)
  {
    if Aperiodic(b) {
      forall q, i, j {:trigger Rows(b, p, q, i, j)} | Rows(b, p, q, i, j)
        ensures i == j
      {
        AperiodicRows(b, p, q, i, j);
      }
    } else {
      var k :| 0 < k < |b| && Rotation(b, k) == Rotation(b, 0);
      var i := PermHits(p, 0);
      var j := PermHits(p, k);
      ExchangeEqual(b, p, i, j);
      assert Rows(b, p, p[i := p[j]][j := p[i]], i, j);
    }
  }
}
