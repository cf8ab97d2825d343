/** The decoder's move-to-front list of 256 entries, kept as sixteen rows of sixteen in an array of
    4096 so that moving an entry to the front moves few cells. */
module MtfTable {

  const ROW := 16
  const SIZE := 4096

  /** l with entry n moved to the front. */
  function MoveToFront<T>(l: seq<T>, n: nat): (r: seq<T>)
    requires n < |l|
    ensures |r| == |l|
    ensures r[0] == l[n] && (forall k {:trigger r[k]} :: 0 < k < |l| ==> r[k] == if k <= n then l[k - 1] else l[k])
  {
    [l[n]] + l[..n] + l[n + 1..]
  }

  function Cell(i: int, j: int): int { ROW * i + j }

  /** The rows lie in the array one after the other. */
  ghost predicate Rows(base: seq<int>) {
    && |base| == 16
    && (forall i {:trigger base[i]} :: 0 <= i < 16 ==> ROW * i <= base[i] <= SIZE - 256 + ROW * i)
    && forall i, k {:trigger base[i], base[k]} :: 0 <= i < k < 16 ==> base[i] + ROW * (k - i) <= base[k]
  }

  /** The rows hold the list l. */
  ghost predicate Holds(a: seq<int>, base: seq<int>, l: seq<int>) {
    && |a| == SIZE && Rows(base) && |l| == 256
    && forall i, j {:trigger Cell(i, j)} :: 0 <= i < 16 && 0 <= j < ROW ==>
         a[base[i] + j] == l[Cell(i, j)]
  }

  class Table {
    const a: array<int>
    const base: array<int>

    ghost predicate Valid(l: seq<int>)
      reads a, base
    {
      a != base && a.Length == SIZE && base.Length == 16 && Holds(a[..], base[..], l) && base[0] > 0
    }

    /** The list starts as 0, 1, ..., 255, in the last 256 cells. */
    constructor ()
      ensures fresh(a) && fresh(base) && Valid(seq(256, k => k))
    {
      a := new int[SIZE](_ => 0);
      base := new int[16](_ => 0);
      new;
      var kk := SIZE - 1;
      var ii := 15;
      while ii >= 0
        invariant -1 <= ii < 16 && kk == SIZE - 256 + ROW * (ii + 1) - 1
        invariant forall r {:trigger base[r]} :: ii < r < 16 ==> base[r] == SIZE - 256 + ROW * r
        invariant forall x {:trigger a[x]} :: kk < x < SIZE ==> a[x] == x - (SIZE - 256)
      {
        var jj := ROW - 1;
        while jj >= 0
          modifies a
          invariant -1 <= jj < ROW && kk == SIZE - 256 + ROW * ii + jj
          invariant forall x {:trigger a[x]} :: kk < x < SIZE ==> a[x] == x - (SIZE - 256)
        {
          a[kk] := ii * ROW + jj;
          kk, jj := kk - 1, jj - 1;
        }
        base[ii] := kk + 1;
        ii := ii - 1;
      }
    }

    /** The front entry, which RUNA and RUNB repeat. */
    method Front(ghost l: seq<int>) returns (uc: int)
      requires Valid(l)
      ensures uc == l[0]
    {
      uc := a[base[0]];
      assert Cell(0, 0) == 0;
    }

    /** Returns entry nn and moves it to the front. */
    method Take(nn: nat, ghost l: seq<int>) returns (uc: int)
      requires Valid(l) && nn < 256
      modifies a, base
      ensures uc == l[nn] && Valid(MoveToFront(l, nn))
    {
      if nn < ROW {
        uc := TakeNear(nn, l);
      } else {
        uc := TakeFar(nn, l);
        if base[0] == 0 { Repack(MoveToFront(l, nn)); }
      }
    }

    /** Fewer than sixteen places: everything happens in the first row, four cells at a time. */
    method TakeNear(nn: nat, ghost l: seq<int>) returns (uc: int)
      requires Valid(l) && nn < ROW
      modifies a
      ensures uc == l[nn] && Valid(MoveToFront(l, nn))
    {
      ghost var was := a[..];
      var pp := base[0];
      assert Cell(0, nn) == nn;
      uc := a[pp + nn];
      var m := nn;
      while m > 3
        invariant m <= nn && Shifted(was, a[..], pp, m, nn)
      {
        var z := pp + m;
        a[z] := a[z - 1];
        a[z - 1] := a[z - 2];
        a[z - 2] := a[z - 3];
        a[z - 3] := a[z - 4];
        m := m - 4;
      }
      while m > 0
        invariant m <= nn && Shifted(was, a[..], pp, m, nn)
      {
        a[pp + m] := a[pp + m - 1];
        m := m - 1;
      }
      a[pp] := uc;
      NearHolds(was, a[..], base[..], l, nn);
    }

    /** Moves the entries before pp in its row up by one. */
    method ShiftUp(lno: int, off: int)
      requires a != base && a.Length == SIZE && base.Length == 16 && Rows(base[..]) && 0 <= lno < 16 && 0 <= off < ROW
      modifies a
      ensures Shifted(old(a[..]), a[..], base[lno], 0, off)
    {
      ghost var was := a[..];
      assert base[lno] == base[..][lno];
      var pp := base[lno] + off;
      while pp > base[lno]
        invariant base[lno] <= pp <= base[lno] + off && Shifted(was, a[..], base[lno], pp - base[lno], off)
      {
        a[pp] := a[pp - 1];
        pp := pp - 1;
      }
    }

    /** Carries the last entry of each row to the front of the next, from row far down. */
    method Carry(far: int, ghost rows: seq<int>, ghost l: seq<int>, ghost nn: nat)
      requires a != base && a.Length == SIZE && base.Length == 16 && 0 < far < 16
      requires |l| == 256 && ROW * far <= nn < 256 && base[..] == Bases(rows, far, far)
      requires Carrying(a[..], rows, l, MoveToFront(l, nn), far, far)
      modifies a, base
      ensures base[..] == Bases(rows, far, 0) && Carrying(a[..], rows, l, MoveToFront(l, nn), far, 0)
    {
      var lno := far;
      while lno > 0
        invariant 0 <= lno <= far && base[..] == Bases(rows, far, lno)
        invariant Carrying(a[..], rows, l, MoveToFront(l, nn), far, lno)
      {
        CarryOne(a[..], rows, l, nn, far, lno);
        ghost var was := base[..];
        base[lno] := base[lno] - 1;
        assert base[..] == was[lno := New(rows, far, lno)] == Bases(rows, far, lno - 1);
        assert base[lno - 1] == Bases(rows, far, lno - 1)[lno - 1] == rows[lno - 1];
        a[base[lno]] := a[base[lno - 1] + ROW - 1];
        lno := lno - 1;
      }
    }

    /** The general case, up to the repack. */
    method TakeFar(nn: nat, ghost l: seq<int>) returns (uc: int)
      requires Valid(l) && ROW <= nn < 256
      modifies a, base
      ensures uc == l[nn] && Holds(a[..], base[..], MoveToFront(l, nn))
    {
      ghost var was, rows := a[..], base[..];
      var lno, off := nn / ROW, nn % ROW;
      assert Cell(lno, off) == nn && base[lno] == rows[lno];
      uc := a[base[lno] + off];
      assert uc == was[rows[lno] + off] == l[nn];
      ShiftUp(lno, off);
      FarBegins(was, a[..], rows, l, nn, lno, off);
      base[lno] := base[lno] + 1;
      assert base[..] == Bases(rows, lno, lno);
      Carry(lno, rows, l, nn);
      CarryEnds(a[..], rows, l, nn, lno);
      assert base[0] == Bases(rows, lno, 0)[0] == rows[0];
      base[0] := base[0] - 1;
      a[base[0]] := uc;
      assert base[..] == AllNew(rows, lno);
    }

    method PackRow(ii: int, kk0: int, ghost rows: seq<int>, ghost l: seq<int>) returns (kk: int)
      requires a.Length == SIZE && base.Length == |rows| == 16 && 0 <= ii < 16 && base[ii] == rows[ii]
        && kk0 == SIZE - 256 + ROW * ii + ROW - 1
      requires a != base && Packing(a[..], rows, l, ii, ROW)
      modifies a
      ensures kk == SIZE - 256 + ROW * ii - 1 && Packing(a[..], rows, l, ii, 0)
    {
      kk := kk0;
      var jj := ROW - 1;
      while jj >= 0
        invariant -1 <= jj < ROW && kk == SIZE - 256 + ROW * ii + jj
        invariant Packing(a[..], rows, l, ii, jj + 1)
      {
        PackOne(a[..], rows, l, ii, jj);
        a[kk] := a[base[ii] + jj];
        kk, jj := kk - 1, jj - 1;
      }
    }

    /** Moves all rows back to the end of the array. */
    method Repack(ghost l: seq<int>)
      requires a != base && a.Length == SIZE && base.Length == 16 && Holds(a[..], base[..], l)
      modifies a, base
      ensures Valid(l)
    {
      ghost var rows := base[..];
      var kk, ii := SIZE - 1, 15;
      while ii >= 0
        invariant -1 <= ii < 16 && kk == SIZE - 256 + ROW * (ii + 1) - 1
        invariant forall r {:trigger base[r]} ::
          0 <= r < 16 ==> base[r] == if r <= ii then rows[r] else SIZE - 256 + ROW * r
        invariant Packing(a[..], rows, l, ii + 1, 0)
      {
        PackNextRow(a[..], rows, l, ii + 1);
        kk := PackRow(ii, kk, rows, l);
        base[ii] := kk + 1;
        ii := ii - 1;
      }
      PackEnds(a[..], rows, base[..], l);
    }
  }

  /** Cells p + m + 1 .. p + n have been moved up by one. */
  ghost predicate Shifted(was: seq<int>, now: seq<int>, p: int, m: int, n: int) {
    && |now| == |was| && 0 <= p && 0 <= m <= n && p + n < |was|
    && forall x {:trigger now[x]} :: 0 <= x < |was| ==> now[x] == if p + m < x <= p + n then was[x - 1] else was[x]
  }

  lemma NearHolds(was: seq<int>, now: seq<int>, base: seq<int>, l: seq<int>, n: nat)
    requires Holds(was, base, l) && n < ROW && |now| == SIZE
    requires forall x {:trigger now[x]} :: 0 <= x < SIZE ==>
      now[x] == if x == base[0] then was[base[0] + n] else if base[0] < x <= base[0] + n then was[x - 1] else was[x]
    ensures Holds(now, base, MoveToFront(l, n))
  {
    var r := MoveToFront(l, n);
    forall i, j {:trigger Cell(i, j)} | 0 <= i < 16 && 0 <= j < ROW ensures now[base[i] + j] == r[Cell(i, j)] {
      if i == 0 {
        assert Cell(0, n) == n && (j > 0 ==> Cell(0, j - 1) == j - 1);
      } else {
        assert base[0] + ROW * i <= base[i];
      }
    }
  }

  /** Where row i starts after a far move from row far, and the bases when the carry has reached row k. */
  ghost function New(rows: seq<int>, far: int, i: int): int
    requires 0 <= i < |rows|
  {
    if i < far then rows[i] - 1 else rows[i]
  }

  ghost function Bases(rows: seq<int>, far: int, k: int): (r: seq<int>)
    ensures |r| == |rows|
  {
    seq(|rows|, i requires 0 <= i < |rows| =>
      if i == k && k == far then rows[i] + 1 else if i <= k then rows[i] else New(rows, far, i))
  }

  ghost function AllNew(rows: seq<int>, far: int): (r: seq<int>)
    ensures |r| == |rows|
  {
    seq(|rows|, i requires 0 <= i < |rows| => New(rows, far, i))
  }

  /** Rows below k are as they were, row k lacks its first entry, the rows above are done. */
  ghost predicate Carrying(a: seq<int>, rows: seq<int>, l: seq<int>, r: seq<int>, far: int, k: int) {
    && |a| == SIZE && Rows(rows) && |l| == |r| == 256 && 0 <= k <= far < 16 && rows[0] > 0
    && (forall i, j {:trigger Cell(i, j)} :: 0 <= i < k && 0 <= j < ROW ==> a[rows[i] + j] == l[Cell(i, j)])
    && (forall j {:trigger Cell(k, j)} :: 0 < j < ROW ==> a[New(rows, far, k) + j] == r[Cell(k, j)])
    && (forall i, j {:trigger Cell(i, j)} :: k < i < 16 && 0 <= j < ROW ==>
          a[New(rows, far, i) + j] == r[Cell(i, j)])
  }

  lemma FarBegins(was: seq<int>, now: seq<int>, rows: seq<int>, l: seq<int>, n: nat, far: int, off: int)
    requires Holds(was, rows, l) && 0 <= far < 16 && 0 <= off < ROW && n == Cell(far, off) && rows[0] > 0
    requires Shifted(was, now, rows[far], 0, off)
    ensures Carrying(now, rows, l, MoveToFront(l, n), far, far)
  {
    var r := MoveToFront(l, n);
    forall i, j {:trigger Cell(i, j)} | 0 <= i < far && 0 <= j < ROW ensures now[rows[i] + j] == l[Cell(i, j)] {
      assert rows[i] + ROW * (far - i) <= rows[far];
    }
    forall j {:trigger Cell(far, j)} | 0 < j < ROW ensures now[New(rows, far, far) + j] == r[Cell(far, j)] {
      assert was[rows[far] + j] == l[Cell(far, j)] && was[rows[far] + j - 1] == l[Cell(far, j - 1)];
    }
    forall i, j {:trigger Cell(i, j)} | far < i < 16 && 0 <= j < ROW
      ensures now[New(rows, far, i) + j] == r[Cell(i, j)]
    {
      assert rows[far] + ROW * (i - far) <= rows[i];
    }
  }

  /** Cell i, j is apart from the first cell of the new row k, except for the cell that is copied there. */
  lemma CellsApart(rows: seq<int>, far: int, k: int, i: int, j: int)
    requires Rows(rows) && 0 < k <= far < 16 && 0 <= i < 16 && 0 <= j < ROW
    ensures i < k && !(i == k - 1 && j == ROW - 1) ==> rows[i] + j != New(rows, far, k)
    ensures k < i ==> New(rows, far, i) + j != New(rows, far, k)
  {
    assert i < k ==> rows[i] + ROW * (k - i) <= rows[k];
    assert k < i ==> rows[k] + ROW * (i - k) <= rows[i];
  }

  /** The last entry of row k - 1 becomes the first of row k. */
  lemma CarryOne(a: seq<int>, rows: seq<int>, l: seq<int>, n: nat, far: int, k: int)
    requires |l| == 256 && n < 256 && Carrying(a, rows, l, MoveToFront(l, n), far, k) && k > 0 && ROW * far <= n
    ensures 0 <= New(rows, far, k) < SIZE && 0 <= rows[k - 1] + ROW - 1 < SIZE
    ensures Carrying(a[New(rows, far, k) := a[rows[k - 1] + ROW - 1]], rows, l, MoveToFront(l, n), far, k - 1)
  {
    var r, z, b := MoveToFront(l, n), New(rows, far, k), a[New(rows, far, k) := a[rows[k - 1] + ROW - 1]];
    forall i, j {:trigger Cell(i, j)} | 0 <= i < k - 1 && 0 <= j < ROW ensures b[rows[i] + j] == l[Cell(i, j)] {
      CellsApart(rows, far, k, i, j);
    }
    forall j {:trigger Cell(k - 1, j)} | 0 < j < ROW
      ensures b[New(rows, far, k - 1) + j] == r[Cell(k - 1, j)]
    {
      CellsApart(rows, far, k, k - 1, j - 1);
      assert a[rows[k - 1] + (j - 1)] == l[Cell(k - 1, j - 1)];
    }
    forall i, j {:trigger Cell(i, j)} | k - 1 < i < 16 && 0 <= j < ROW
      ensures b[New(rows, far, i) + j] == r[Cell(i, j)]
    {
      if i == k && j == 0 {
        assert a[rows[k - 1] + (ROW - 1)] == l[Cell(k - 1, ROW - 1)] && Cell(k - 1, ROW - 1) == Cell(k, 0) - 1;
      } else {
        CellsApart(rows, far, k, i, j);
      }
    }
  }

  lemma CarryEnds(a: seq<int>, rows: seq<int>, l: seq<int>, n: nat, far: int)
    requires |l| == 256 && n < 256 && Carrying(a, rows, l, MoveToFront(l, n), far, 0) && 0 < far
    ensures Holds(a[rows[0] - 1 := l[n]], AllNew(rows, far), MoveToFront(l, n))
  {
    var r, base, b := MoveToFront(l, n), AllNew(rows, far), a[rows[0] - 1 := l[n]];
    forall i, k {:trigger base[i], base[k]} | 0 <= i < k < 16 ensures base[i] + ROW * (k - i) <= base[k] {
      assert rows[i] + ROW * (k - i) <= rows[k];
    }
    forall i, j {:trigger Cell(i, j)} | 0 <= i < 16 && 0 <= j < ROW
      ensures b[base[i] + j] == r[Cell(i, j)]
    {
      assert i > 0 ==> rows[0] + ROW * i <= rows[i];
      assert Cell(0, 0) == 0;
    }
  }

  /** The rows from (i, j) on have been copied to the end; the others are as they were. */
  ghost predicate Packing(a: seq<int>, rows: seq<int>, l: seq<int>, i: int, j: int) {
    && |a| == SIZE && Rows(rows) && |l| == 256 && 0 <= i <= 16 && 0 <= j <= ROW
    && (forall r, c {:trigger Cell(r, c)} :: 0 <= r < 16 && 0 <= c < ROW && Cell(r, c) >= Cell(i, j) ==>
          a[SIZE - 256 + Cell(r, c)] == l[Cell(r, c)])
    && (forall r, c {:trigger Cell(r, c)} :: 0 <= r < 16 && 0 <= c < ROW && Cell(r, c) < Cell(i, j) ==>
          a[rows[r] + c] == l[Cell(r, c)])
  }

  lemma PackEnds(a: seq<int>, rows: seq<int>, base: seq<int>, l: seq<int>)
    requires Packing(a, rows, l, 0, 0) && |base| == 16
    requires forall r {:trigger base[r]} :: 0 <= r < 16 ==> base[r] == SIZE - 256 + ROW * r
    ensures Holds(a, base, l)
  {
  }

  lemma PackNextRow(a: seq<int>, rows: seq<int>, l: seq<int>, i: int)
    requires Packing(a, rows, l, i, 0) && i > 0
    ensures Packing(a, rows, l, i - 1, ROW)
  {
  }

  lemma PackOne(a: seq<int>, rows: seq<int>, l: seq<int>, i: int, j: int)
    requires Packing(a, rows, l, i, j + 1) && 0 <= i < 16 && 0 <= j < ROW
    ensures 0 <= SIZE - 256 + Cell(i, j) < SIZE && 0 <= rows[i] + j < SIZE
    ensures Packing(a[SIZE - 256 + Cell(i, j) := a[rows[i] + j]], rows, l, i, j)
  {
    var b := a[SIZE - 256 + Cell(i, j) := a[rows[i] + j]];
    forall r, c {:trigger Cell(r, c)} | 0 <= r < 16 && 0 <= c < ROW && Cell(r, c) < Cell(i, j)
      ensures b[rows[r] + c] == l[Cell(r, c)]
    {
      assert r < i ==> rows[r] + ROW * (i - r) <= rows[i];
      assert rows[r] + c < SIZE - 256 + Cell(i, j);
    }
  }
}
