/** generateMTFValues: the move-to-front encoder, which writes its values over the sorted order it
    is still reading. */
module MtfEncode {
  import opened MtfTable
  import opened Mtf

  // ---- bytes in use ----

  /** How many of the first i bytes are in use. */
  function Used(inUse: seq<bool>, i: nat): (r: nat)
    requires i <= |inUse|
    ensures r <= i
  {
    if i == 0 then 0 else Used(inUse, i - 1) + if inUse[i - 1] then 1 else 0
  }

  /** makeMaps_e: numbers the bytes in use. */
  method MakeMapsE(inUse: array<bool>) returns (unseqToSeq: array<int>, nInUse: int)
    requires inUse.Length == 256
    ensures fresh(unseqToSeq) && unseqToSeq.Length == 256 && nInUse == Used(inUse[..], 256)
    ensures forall i {:trigger unseqToSeq[i]} ::
      0 <= i < 256 && inUse[i] ==> unseqToSeq[i] == Used(inUse[..], i) < nInUse
  {
    ghost var u := inUse[..];
    unseqToSeq := new int[256];
    nInUse := 0;
    for i := 0 to 256
      invariant nInUse == Used(u, i)
      invariant forall k {:trigger unseqToSeq[k]} :: 0 <= k < i && u[k] ==> unseqToSeq[k] == Used(u, k) < nInUse
    {
      if inUse[i] {
        unseqToSeq[i] := nInUse;
        nInUse := nInUse + 1;
      }
    }
  }

  // ---- the overlaid memory ----

  /** mem holds 16-bit halves. ptr[i] is made of halves 2i and 2i + 1, mtfv[w] is half w: the
      entries of ptr from i on are still there. */
  ghost predicate Unread(mem: seq<int>, order: seq<int>, i: nat) {
    && 2 * |order| <= |mem|
    && forall k {:trigger order[k]} :: i <= k < |order| ==> mem[2 * k] + 65536 * mem[2 * k + 1] == order[k]
  }

  /** out has been written, and counted in freq. */
  ghost predicate Written(mem: seq<int>, freq: seq<int>, out: seq<int>) {
    && |out| <= |mem| && |freq| == 258
    && (forall k {:trigger out[k]} :: 0 <= k < |out| ==> mem[k] == out[k])
    && forall v {:trigger freq[v]} :: 0 <= v < 258 ==> freq[v] == multiset(out)[v]
  }

  /** mtfv[wr] = v; wr++; mtfFreq[v]++. */
  method Emit(mem: array<int>, freq: array<int>, wr: int, v: int, ghost out: seq<int>, ghost order: seq<int>,
      ghost i: nat)
    requires mem != freq && 0 <= v < 258 && wr == |out| < mem.Length && wr < 2 * i && Written(mem[..], freq[..], out)
    requires Unread(mem[..], order, i)
    modifies mem, freq
    ensures Written(mem[..], freq[..], out + [v]) && Unread(mem[..], order, i)
  {
    ghost var was := freq[..];
    assert freq[v] == was[v];
    mem[wr] := v;
    freq[v] := freq[v] + 1;
    assert multiset(out + [v]) == multiset(out) + multiset{v};
    assert freq[..] == was[v := was[v] + 1];
  }

  /** One digit of a run, and the rest of it. */
  lemma RunDigitOut(now: seq<int>, zPend: nat, digit: int)
    requires digit == if zPend % 2 == 1 then RUNB else RUNA
    ensures now + Run(zPend + 1) == (now + [digit]) + Run(zPend / 2) && |Run(zPend + 1)| >= 1
    ensures zPend < 2 ==> now + Run(zPend + 1) == now + [digit]
    ensures zPend >= 2 ==> zPend / 2 == (zPend - 2) / 2 + 1
  {
    assert Run(zPend + 1) == [digit] + Run(zPend / 2);
    if zPend < 2 { assert Run(zPend / 2) == []; }
  }

  /** Writes the pending run. */
  method FlushRun(mem: array<int>, freq: array<int>, wr0: int, z: int, ghost out: seq<int>, ghost order: seq<int>,
      ghost i: nat)
      returns (wr: int)
    requires mem != freq && z >= 0 && wr0 == |out| && wr0 + z <= mem.Length && wr0 + z <= 2 * i
      && Written(mem[..], freq[..], out)
    requires Unread(mem[..], order, i)
    modifies mem, freq
    ensures Written(mem[..], freq[..], out + Run(z)) && Unread(mem[..], order, i) && wr == wr0 + |Run(z)|
  {
    wr := wr0;
    assert out + [] == out;
    if z > 0 {
      var zPend := z - 1;
      ghost var now := out;
      while true
        invariant zPend >= 0 && now + Run(zPend + 1) == out + Run(z) && wr == |now|
        invariant Written(mem[..], freq[..], now) && Unread(mem[..], order, i)
        decreases zPend
      {
        var digit := if zPend % 2 == 1 then RUNB else RUNA;
        RunDigitOut(now, zPend, digit);
        assert |out + Run(z)| <= wr0 + z;
        Emit(mem, freq, wr, digit, now, order, i);
        now := now + [digit];
        wr := wr + 1;
        if zPend < 2 { break; }
        zPend := (zPend - 2) / 2;
      }
    }
  }

  /** Finds v behind the front of yy, moving the entries on the way up by one. */
  method FindAndMove(yy: array<int>, m: nat, v: int) returns (j: int)
    requires 0 < m <= yy.Length && v in yy[..m] && yy[0] != v
    modifies yy
    ensures j == Find(old(yy[..m]), v) && 0 < j < m && yy[..m] == MoveToFront(old(yy[..m]), j)
  {
    ghost var l := yy[..m];
    ghost var at := Find(l, v);
    assert at > 0 && l[at] == v;
    var rtmp := yy[1];
    yy[1] := yy[0];
    j := 1;
    while rtmp != v
      invariant 1 <= j <= at < m <= yy.Length && rtmp == l[j]
      invariant forall k {:trigger yy[k]} :: 0 <= k < m ==> yy[k] == if 1 <= k <= j then l[k - 1] else l[k]
      decreases m - j
    {
      j := j + 1;
      var rtmp2 := rtmp;
      rtmp := yy[j];
      yy[j] := rtmp2;
    }
    assert j == at;
    yy[0] := rtmp;
    assert yy[..m] == MoveToFront(l, j);
  }

  /** The byte before rotation i, numbered among the bytes in use. */
  method ColumnEntry(mem: array<int>, block: array<int>, unseqToSeq: array<int>, n: nat, i: nat, ghost order: seq<int>,
      ghost c: seq<int>)
      returns (v: int)
    requires Unread(mem[..], order, i) && i < n == |order| == |c| && Source(block[..], unseqToSeq[..], order, c)
    ensures v == c[i]
  {
    assert mem[2 * i] == mem[..][2 * i] && mem[2 * i + 1] == mem[..][2 * i + 1];
    assert mem[2 * i] + 65536 * mem[2 * i + 1] == order[i];
    var j := mem[2 * i] + 65536 * mem[2 * i + 1] - 1;
    if j < 0 { j := j + n; }
    v := unseqToSeq[block[j]];
  }

  /** c is the last column of the sorted rotations, numbered among the bytes in use. */
  ghost predicate Source(block: seq<int>, unseqToSeq: seq<int>, order: seq<int>, c: seq<int>) {
    && |c| == |order| <= |block|
    && forall i {:trigger order[i]} :: 0 <= i < |order| ==>
         && 0 <= order[i] < |order|
         && var j := if order[i] == 0 then |order| - 1 else order[i] - 1;
            0 <= block[j] < |unseqToSeq| && unseqToSeq[block[j]] == c[i]
  }

  /** The arrays hold the encoder's state e. */
  ghost predicate Encoding(mem: seq<int>, freq: seq<int>, yy: seq<int>, wr: int, zPend: int, e: State, m: nat) {
    && 0 < m == |e.l| <= 256 <= |yy| && yy[..m] == e.l && zPend == e.z && wr == |e.out| && Written(mem, freq, e.out)
  }

  /** One turn of the loop, for entry v read from ptr[i - 1]. */
  method EncodeOne(mem: array<int>, freq: array<int>, yy: array<int>, wr0: int, zPend0: int, v: int, m: nat,
      ghost e: State, ghost order: seq<int>, ghost i: nat) returns (wr: int, zPend: int)
    requires mem != freq && yy != mem && yy != freq && v in e.l && |e.out| + e.z < i && i <= |order|
    requires Encoding(mem[..], freq[..], yy[..], wr0, zPend0, e, m) && Unread(mem[..], order, i)
    modifies mem, freq, yy
    ensures Encoding(mem[..], freq[..], yy[..], wr, zPend, Step(e, v), m) && Unread(mem[..], order, i)
  {
    wr, zPend := wr0, zPend0;
    assert yy[..m] == yy[..][..m] && yy[0] == yy[..m][0];
    if yy[0] == v {
      zPend := zPend + 1;
    } else {
      wr := FlushRun(mem, freq, wr, zPend, e.out, order, i);
      zPend := 0;
      var j := FindAndMove(yy, m, v);
      Emit(mem, freq, wr, j + 1, e.out + Run(e.z), order, i);
      wr := wr + 1;
      assert yy[..m] == yy[..][..m];
    }
  }

  /** generateMTFValues. Each ptr entry is read before a value is written over it. */
  method Generate(mem: array<int>, block: array<int>, unseqToSeq: array<int>, n: nat, m: nat, ghost order: seq<int>,
      ghost c: seq<int>)
      returns (nMTF: int, mtfFreq: array<int>)
    requires mem != block && mem != unseqToSeq && 0 < n == |order| && m > 0 && Column(c, m)
    requires Unread(mem[..], order, 0) && Source(block[..], unseqToSeq[..], order, c)
    modifies mem
    ensures fresh(mtfFreq) && nMTF == |Encode(c, m)| <= n + 1
    ensures Written(mem[..], mtfFreq[..], Encode(c, m))
  {
    mtfFreq := new int[258](_ => 0);
    var yy := new int[256](k => k);
    assert yy[..][..m] == Iota(m);
    var wr, zPend := 0, 0;
    for i := 0 to n
      modifies mem, mtfFreq, yy
      invariant Encoding(mem[..], mtfFreq[..], yy[..], wr, zPend, After(c, m, i), m) && Unread(mem[..], order, i)
    {
      wr, zPend := GenerateOne(mem, mtfFreq, yy, block, unseqToSeq, wr, zPend, n, m, i, order, c);
    }
    nMTF := GenerateEnd(mem, mtfFreq, wr, zPend, n, m, order, c, yy[..]);
  }

  /** One turn of the loop. */
  method GenerateOne(mem: array<int>, freq: array<int>, yy: array<int>, block: array<int>, unseqToSeq: array<int>,
      wr0: int, zPend0: int, n: nat, m: nat,
      i: nat, ghost order: seq<int>, ghost c: seq<int>) returns (wr: int, zPend: int)
    requires mem != freq && yy != mem && yy != freq && i < n == |order| && m > 0 && Column(c, m)
    requires Source(block[..], unseqToSeq[..], order, c)
    requires Encoding(mem[..], freq[..], yy[..], wr0, zPend0, After(c, m, i), m) && Unread(mem[..], order, i)
    modifies mem, freq, yy
    ensures Encoding(mem[..], freq[..], yy[..], wr, zPend, After(c, m, i + 1), m) && Unread(mem[..], order, i + 1)
  {
    ghost var e := After(c, m, i);
    var v := ColumnEntry(mem, block, unseqToSeq, n, i, order, c);
    assert v in e.l && After(c, m, i + 1) == Step(e, v);
    wr, zPend := EncodeOne(mem, freq, yy, wr0, zPend0, v, m, e, order, i + 1);
  }

  /** The run that is still pending, and the end-of-block symbol. */
  method GenerateEnd(mem: array<int>, freq: array<int>, wr0: int, zPend: int, n: nat, m: nat, ghost order: seq<int>,
      ghost c: seq<int>, ghost yy: seq<int>)
      returns (nMTF: int)
    requires mem != freq && 0 < n == |order| == |c| && m > 0 && Column(c, m)
    requires Encoding(mem[..], freq[..], yy, wr0, zPend, After(c, m, n), m) && Unread(mem[..], order, n)
    modifies mem, freq
    ensures nMTF == |Encode(c, m)| <= n + 1 && Written(mem[..], freq[..], Encode(c, m))
  {
    ghost var e := After(c, m, n);
    var wr := FlushRun(mem, freq, wr0, zPend, e.out, order, n);
    Emit(mem, freq, wr, m + 1, e.out + Run(e.z), order, n);
    nMTF := wr + 1;
  }
}
