/** unRLE_obuf_to_output_FAST and _SMALL: the decoded block is undone run by run into whatever output
    space the caller gives, stopping anywhere and going on at the next call. */
module Unpack {
  import opened Rotations
  import opened Counting
  import opened Bwt
  import opened InverseBwt
  import opened Rle

  /** A received column with its T^-1 vector, and where the decoder starts. */
  datatype Column = Column(l: seq<Byte>, inv: seq<int>, start: int)

  ghost predicate IsColumn(c: Column) {
    c.l != [] && IsTInverse(c.l, c.inv) && 0 <= c.start < |c.l|
  }

  /** The row the decoder stands at after j steps. */
  ghost function RowAt(c: Column, j: nat): (r: int)
    requires IsColumn(c)
    ensures 0 <= r < |c.l|
  {
    if j == 0 then c.start else c.inv[RowAt(c, j - 1)]
  }

  /** The bytes the decoder fetches: those of the block and two more. */
  ghost function Fetches(c: Column): (b: seq<int>)
    requires IsColumn(c)
    ensures Fetched(b, |c.l|) && forall j {:trigger b[j]} :: 0 <= j < |b| ==> b[j] == c.l[RowAt(c, j)]
  {
    seq(|c.l| + 2, j requires 0 <= j < |c.l| + 2 => c.l[RowAt(c, j)] as int)
  }

  lemma {:induction false} WalkRows(c: Column, t: nat, k: nat)
    requires IsColumn(c)
    ensures Walk(c.l, c.inv, RowAt(c, t), k) == seq<Byte>(k, j requires 0 <= j < k => c.l[RowAt(c, t + j)])
    decreases k
  {
    if k > 0 {
      WalkRows(c, t + 1, k - 1);
      var s := seq<Byte>(k, j requires 0 <= j < k => c.l[RowAt(c, t + j)]);
      assert s == [s[0]] + s[1..];
      assert s[1..] == seq<Byte>(k - 1, j requires 0 <= j < k - 1 => c.l[RowAt(c, t + 1 + j)]);
    }
  }

  /** Up to the block's length, what is fetched is what the inverse transform emits. */
  lemma FetchesWalk(c: Column)
    requires IsColumn(c)
    ensures Fetches(c)[..|c.l|] == Walk(c.l, c.inv, c.start, |c.l|)
  {
    WalkRows(c, 0, |c.l|);
  }

  /** Where the decoder is: the run it is in, the byte it looked ahead at, how many it has fetched. */
  datatype Place = Place(ch: int, len: int, k0: int, used: int, row: int)

  /** p is a place in the block: k0 is byte used - 1, unless that is past the end. */
  ghost predicate AtPlace(c: Column, p: Place) {
    && IsColumn(c) && 1 <= p.used <= |c.l| + 2 && p.len >= 0
    && (p.used <= |c.l| ==> p.k0 == Fetches(c)[p.used - 1])
  }

  /** What is still to come out. */
  ghost function Left(c: Column, p: Place): seq<int>
    requires AtPlace(c, p)
  {
    Repeat(p.ch, p.len) + Rest(Fetches(c), |c.l|, p.used - 1)
  }

  /** The place at which output of a block starts. */
  ghost function Begin(c: Column): Place
    requires IsColumn(c)
  {
    Place(0, 0, Fetches(c)[0], 1, RowAt(c, 1))
  }

  lemma BeginLeft(c: Column)
    requires IsColumn(c)
    ensures AtPlace(c, Begin(c)) && Left(c, Begin(c)) == Rest(Fetches(c), |c.l|, 0)
  {
  }

  /** A new run at byte u: what the fetches and tests leave behind. Kept closed where it is only passed on. */
  ghost predicate NewRun(b: seq<int>, n: nat, u: nat, q: Place) {
    forall x {:trigger Fed(b, x)} :: Fed(b, x) ==> RunAt(b, n, u, q)
  }

  ghost predicate Fed(b: seq<int>, u: int) { true }

  /** A run of len bytes without a count. */
  lemma ShortRun(b: seq<int>, n: nat, u: nat, q: Place)
    requires Fetched(b, n) && u < n && 1 <= q.len <= 3 && q.used == u + q.len + 1 <= n + 1 && q.ch == b[u]
    requires (q.len >= 2 ==> b[u + 1] == b[u]) && (q.len >= 3 ==> b[u + 2] == b[u])
    requires q.used <= n ==> q.k0 == b[q.used - 1] != b[u]
    ensures NewRun(b, n, u, q)
  {
  }

  /** A run of four or more. */
  lemma LongRun(b: seq<int>, n: nat, u: nat, q: Place)
    requires Fetched(b, n) && u + 3 < n && b[u] == b[u + 1] == b[u + 2] == b[u + 3] == q.ch && q.used == u + 6
    requires q.len == b[u + 4] + 4 && q.k0 == b[u + 5]
    ensures NewRun(b, n, u, q)
  {
  }

  ghost predicate RunAt(b: seq<int>, n: nat, u: nat, q: Place) {
    && Fetched(b, n) && u < n && q.ch == b[u] && (q.len, q.used - 1) == NextRun(b, n, u)
    && (q.used <= n ==> q.k0 == b[q.used - 1])
  }

  lemma RestStep(b: seq<int>, n: nat, u: nat, q: Place)
    requires RunAt(b, n, u, q)
    ensures Rest(b, n, u) == Repeat(q.ch, q.len) + Rest(b, n, q.used - 1) && EndsAt(b, n, u) == EndsAt(b, n, q.used - 1)
    ensures q.len > 0 && u + 1 < q.used <= n + 2
  {
  }

  lemma NewRunLeft(c: Column, b: seq<int>, p: Place, q: Place)
    requires AtPlace(c, p) && b == Fetches(c) && p.len == 0 && p.used <= |c.l| && NewRun(b, |c.l|, p.used - 1, q)
    ensures AtPlace(c, q) && Left(c, q) == Left(c, p) && q.len > 0 && q.used > p.used
    ensures EndsAt(b, |c.l|, q.used - 1) == EndsAt(b, |c.l|, p.used - 1)
  {
    assert Fed(b, 0);
    RestStep(b, |c.l|, p.used - 1, q);
    NewRunAt(c, b, p, q);
    NoneLeft(c, p);
  }

  lemma NewRunAt(c: Column, b: seq<int>, p: Place, q: Place)
    requires AtPlace(c, p) && b == Fetches(c) && q.len > 0 && 1 <= q.used <= |c.l| + 2
      && NewRun(b, |c.l|, p.used - 1, q)
    ensures AtPlace(c, q)
  {
    assert Fed(b, 0);
  }

  lemma NoneLeft(c: Column, p: Place)
    requires AtPlace(c, p) && p.len == 0
    ensures Left(c, p) == Rest(Fetches(c), |c.l|, p.used - 1)
  {
    var rest := Rest(Fetches(c), |c.l|, p.used - 1);
    assert Repeat(p.ch, 0) == [] && [] + rest == rest;
  }

  /** At place p of the block, rest is what is still to come out, and the fetching will end at byte
      ends. Kept closed where it is only passed on. */
  ghost predicate Owes(c: Column, p: Place, rest: seq<int>, ends: nat) {
    forall u {:trigger Open(p, u)} :: Open(p, u) ==> OwesNow(c, p, rest, ends)
  }

  ghost predicate OwesNow(c: Column, p: Place, rest: seq<int>, ends: nat) {
    AtPlace(c, p) && Left(c, p) == rest && EndsAt(Fetches(c), |c.l|, p.used - 1) == ends
  }

  ghost predicate Open(p: Place, u: int) { true }

  lemma OwesOpens(c: Column, p: Place, rest: seq<int>, ends: nat)
    ensures Owes(c, p, rest, ends) <==> OwesNow(c, p, rest, ends)
  {
    assert Open(p, 0);
  }

  lemma OwesOut(c: Column, p: Place, rest: seq<int>, ends: nat)
    requires Owes(c, p, rest, ends) && p.len > 0
    ensures rest != [] && rest[0] == p.ch && Owes(c, p.(len := p.len - 1), rest[1..], ends)
  {
    OwesOpens(c, p, rest, ends);
    assert Repeat(p.ch, p.len) == [p.ch] + Repeat(p.ch, p.len - 1);
  }

  lemma OwesNew(c: Column, p: Place, q: Place, rest: seq<int>, ends: nat)
    requires Owes(c, p, rest, ends) && p.len == 0 && 1 <= p.used <= |c.l| && IsColumn(c)
      && NewRun(Fetches(c), |c.l|, p.used - 1, q)
    ensures Owes(c, q, rest, ends) && q.len > 0 && q.used > p.used
  {
    OwesOpens(c, p, rest, ends);
    NewRunLeft(c, Fetches(c), p, q);
  }

  lemma OwesEnd(c: Column, p: Place, rest: seq<int>, ends: nat)
    requires Owes(c, p, rest, ends)
    ensures 1 <= p.used <= |c.l| + 2 && p.len >= 0 && IsColumn(c) && |c.l| <= ends
      && (p.used <= |c.l| ==> p.k0 == Fetches(c)[p.used - 1])
    ensures p.len == 0 && p.used > |c.l| ==> rest == [] && ends == p.used - 1
    ensures rest == [] ==> p.len == 0 && p.used > |c.l|
  {
    OwesOpens(c, p, rest, ends);
  }

  // ---- FAST ----

  /** The FAST vector holds the column. */
  ghost predicate FastFor(tt: seq<int>, c: Column, maxBlock: int) {
    IsColumn(c) && FastCells(tt, c.l, c.inv) && |c.l| <= maxBlock <= |tt|
  }

  /** At row, the next byte fetched is byte j of b. */
  ghost predicate FeedsFast(tt: seq<int>, c: Column, maxBlock: int, b: seq<int>, j: int, row: int) {
    forall u {:trigger Fed(b, u)} ::
      Fed(b, u) ==> FastFor(tt, c, maxBlock) && b == Fetches(c) && 0 <= j && row == RowAt(c, j)
  }

  /** BZ_GET_FAST_C. */
  method Fetch(tt: array<int>, row: int, maxBlock: nat, ghost c: Column, ghost b: seq<int>, ghost j: nat)
      returns (k: int, next: int)
    requires FeedsFast(tt[..], c, maxBlock, b, j, row) && j < |b|
    ensures k == b[j] && FeedsFast(tt[..], c, maxBlock, b, j + 1, next)
  {
    assert Fed(b, 0);
    var corrupt, byte, r := GetFast(tt, row, maxBlock, c.l, c.inv);
    k, next := byte, r;
  }

  /** The part of the FAST loop that starts a run. */
  method StartFast(tt: array<int>, p: Place, n: nat, maxBlock: nat, ghost c: Column, ghost b: seq<int>)
      returns (q: Place)
    requires Fetched(b, n) && 1 <= p.used <= n && p.k0 == b[p.used - 1]
      && FeedsFast(tt[..], c, maxBlock, b, p.used, p.row)
    ensures NewRun(b, n, p.used - 1, q) && FeedsFast(tt[..], c, maxBlock, b, q.used, q.row)
  {
    ghost var u := p.used - 1;
    var ch, k0, used, row := p.k0, p.k0, p.used, p.row;
    var k1;
    k1, row := Fetch(tt, row, maxBlock, c, b, used);
    used := used + 1;
    if k1 != k0 { q := Place(ch, 1, k1, used, row); ShortRun(b, n, u, q); return; }
    if used == n + 1 { q := Place(ch, 1, k0, used, row); ShortRun(b, n, u, q); return; }
    k1, row := Fetch(tt, row, maxBlock, c, b, used);
    used := used + 1;
    if used == n + 1 { q := Place(ch, 2, k0, used, row); ShortRun(b, n, u, q); return; }
    if k1 != k0 { q := Place(ch, 2, k1, used, row); ShortRun(b, n, u, q); return; }
    var len;
    len, k0, used, row := LongFast(tt, k0, used, row, n, maxBlock, c, b);
    q := Place(ch, len, k0, used, row);
    if used == p.used + 3 { ShortRun(b, n, u, q); } else { LongRun(b, n, u, q); }
  }

  /** The fourth byte of a run, with its count when it is equal to the three before it. */
  method LongFast(tt: array<int>, k: int, used0: nat, row0: int, n: nat, maxBlock: nat, ghost c: Column,
      ghost b: seq<int>)
      returns (len: int, k0: int, used: nat, row: int)
    requires Fetched(b, n) && used0 <= n && FeedsFast(tt[..], c, maxBlock, b, used0, row0)
    ensures FeedsFast(tt[..], c, maxBlock, b, used, row)
    ensures if used0 == n || b[used0] != k
      then len == 3 && used == used0 + 1 && k0 == (if used0 == n then k else b[used0])
            else used0 + 2 < |b| && len == b[used0 + 1] + 4 && used == used0 + 3 && k0 == b[used0 + 2]
  {
    var k1;
    k1, row := Fetch(tt, row0, maxBlock, c, b, used0);
    used, k0, len := used0 + 1, k, 3;
    if used == n + 1 { return; }
    if k1 != k0 { k0 := k1; return; }
    k1, row := Fetch(tt, row, maxBlock, c, b, used);
    used := used + 1;
    k0, row := Fetch(tt, row, maxBlock, c, b, used);
    used, len := used + 1, k1 + 4;
  }

  /** Puts out as much of the run as there is room for. */
  method FinishRun(p: Place, room: nat, ghost c: Column, ghost rest: seq<int>, ghost ends: nat)
      returns (q: Place, out: seq<int>)
    requires Owes(c, p, rest, ends) && p.len >= 0
    ensures |out| <= room && |out| <= |rest| && out == rest[..|out|] && Owes(c, q, rest[|out|..], ends)
    ensures q == p.(len := q.len) && q.len >= 0 && (q.len == 0 || |out| == room)
  {
    q, out := p, [];
    assert rest[0..] == rest;
    while q.len > 0 && |out| < room
      invariant |out| <= room && |out| <= |rest| && out == rest[..|out|] && Owes(c, q, rest[|out|..], ends)
      invariant q == p.(len := q.len) && q.len >= 0
      decreases q.len
    {
      OwesOut(c, q, rest[|out|..], ends);
      assert rest[|out|..][1..] == rest[|out| + 1..];
      out := out + [q.ch];
      q := q.(len := q.len - 1);
    }
  }

  /** As much has come out as there was room for. */
  ghost predicate Unpacked(c: Column, rest: seq<int>, ends: nat, room: nat, q: Place, out: seq<int>) {
    && |out| == (if room < |rest| then room else |rest|) && out == rest[..|out|] && Owes(c, q, rest[|out|..], ends)
  }

  /** What has been put out of rest so far, and the place it has come to. */
  ghost predicate Got(c: Column, q: Place, out: seq<int>, room: nat, rest: seq<int>, ends: nat) {
    |out| <= room && |out| <= |rest| && out == rest[..|out|] && Owes(c, q, rest[|out|..], ends)
  }

  lemma GotEnd(c: Column, q: Place, out: seq<int>, room: nat, rest: seq<int>, ends: nat)
    requires Got(c, q, out, room, rest, ends)
    ensures 1 <= q.used <= |c.l| + 2 && q.len >= 0 && IsColumn(c) && |c.l| <= ends
      && (q.used <= |c.l| ==> q.k0 == Fetches(c)[q.used - 1])
    ensures q.len == 0 && q.used > |c.l| ==> |out| == |rest| && ends == q.used - 1
    ensures |out| == |rest| ==> q.len == 0 && q.used > |c.l|
  {
    OwesEnd(c, q, rest[|out|..], ends);
  }

  /** The run at hand, as far as there is room. */
  method GiveRun(p: Place, out0: seq<int>, room: nat, ghost c: Column, ghost rest: seq<int>, ghost ends: nat)
      returns (q: Place, out: seq<int>)
    requires Got(c, p, out0, room, rest, ends) && p.len >= 0
    ensures Got(c, q, out, room, rest, ends) && q == p.(len := q.len) && q.len >= 0 && (q.len == 0 || |out| == room)
  {
    ghost var left := rest[|out0|..];
    var more;
    q, more := FinishRun(p, room - |out0|, c, left, ends);
    assert left[|more|..] == rest[|out0| + |more|..] && rest[..|out0| + |more|] == out0 + more;
    out := out0 + more;
  }

  /** unRLE_obuf_to_output_FAST for a block that is not randomised. On corrupt data it gives up without
      saving its place, so what it put out in this call is not counted. */
  method Fast(tt: array<int>, p: Place, room: nat, n: nat, maxBlock: nat, ghost c: Column, ghost b: seq<int>,
      ghost rest: seq<int>, ghost ends: nat) returns (corrupt: bool, q: Place, out: seq<int>)
    requires n == |c.l| && Fetched(b, n) && Owes(c, p, rest, ends) && FeedsFast(tt[..], c, maxBlock, b, p.used, p.row)
    requires IsColumn(c) && b == Fetches(c)
    ensures FeedsFast(tt[..], c, maxBlock, b, q.used, q.row)
    ensures corrupt <==> |rest| <= room && ends > n
    ensures if corrupt then q == p && out == [] else Unpacked(c, rest, ends, room, q, out)
    ensures !corrupt && |rest| <= room ==> q.len == 0 && q.used == n + 1
  {
    corrupt, q, out := false, p, [];
    assert rest[0..] == rest;
    OwesEnd(c, p, rest, ends);
    while true
      invariant Got(c, q, out, room, rest, ends) && q.len >= 0 && q.used <= n + 2
        && FeedsFast(tt[..], c, maxBlock, b, q.used, q.row)
      decreases n + 2 - q.used
    {
      q, out := GiveRun(q, out, room, c, rest, ends);
      GotEnd(c, q, out, room, rest, ends);
      if q.len > 0 { return; }
      if q.used > n + 1 { return true, p, []; }
      if q.used == n + 1 { return; }
      var r := StartFast(tt, q, n, maxBlock, c, b);
      OwesNew(c, q, r, rest[|out|..], ends);
      q := r;
      GotEnd(c, q, out, room, rest, ends);
    }
  }

  // ---- SMALL ----

  /** The SMALL vector holds T^-1 along the cycle the decoder follows. */
  ghost predicate SmallFor(cells: seq<int>, cftab: seq<int>, c: Column, cycle: set<int>) {
    && IsColumn(c) && IsCftab(c.l, cftab) && |cells| == |c.l|
    && (forall x {:trigger x in cycle} :: x in cycle ==> 0 <= x < |c.l| && c.inv[x] in cycle && cells[x] == c.inv[x])
  }

  /** At row, the next byte fetched is byte j of b. In SMALL the row is the one before: its T^-1 is the
      row of FAST. */
  ghost predicate FeedsSmall(ll: SmallCells, cftab: seq<int>, c: Column, cycle: set<int>, b: seq<int>, j: int, row: int)
    reads ll, ll.ll16, ll.ll4
  {
    forall u {:trigger Fed(b, u)} :: Fed(b, u) ==>
      && ll.Valid() && SmallFor(ll.cells, cftab, c, cycle) && b == Fetches(c) && 0 <= j && row in cycle
      && 0 <= row < |c.l| && c.inv[row] == RowAt(c, j)
  }

  /** BZ_GET_SMALL. */
  method FetchSmall(ll: SmallCells, cftab: array<int>, row: int, ghost c: Column, ghost cycle: set<int>,
      ghost b: seq<int>, ghost j: nat)
      returns (k: int, next: int)
    requires FeedsSmall(ll, cftab[..], c, cycle, b, j, row) && j < |b|
    ensures k == b[j] && FeedsSmall(ll, cftab[..], c, cycle, b, j + 1, next)
  {
    assert Fed(b, 0);
    k := IndexIntoF(row, cftab, c.l, c.inv);
    next := ll.Get(row);
  }

  method StartSmall(ll: SmallCells, cftab: array<int>, p: Place, n: nat, ghost c: Column, ghost cycle: set<int>,
      ghost b: seq<int>)
      returns (q: Place)
    requires Fetched(b, n) && 1 <= p.used <= n && p.k0 == b[p.used - 1]
    requires FeedsSmall(ll, cftab[..], c, cycle, b, p.used, p.row)
    ensures NewRun(b, n, p.used - 1, q) && FeedsSmall(ll, cftab[..], c, cycle, b, q.used, q.row)
  {
    ghost var u := p.used - 1;
    var ch, k0, used, row := p.k0, p.k0, p.used, p.row;
    var k1;
    k1, row := FetchSmall(ll, cftab, row, c, cycle, b, used);
    used := used + 1;
    if used == n + 1 { q := Place(ch, 1, k0, used, row); ShortRun(b, n, u, q); return; }
    if k1 != k0 { q := Place(ch, 1, k1, used, row); ShortRun(b, n, u, q); return; }
    k1, row := FetchSmall(ll, cftab, row, c, cycle, b, used);
    used := used + 1;
    if used == n + 1 { q := Place(ch, 2, k0, used, row); ShortRun(b, n, u, q); return; }
    if k1 != k0 { q := Place(ch, 2, k1, used, row); ShortRun(b, n, u, q); return; }
    var len;
    len, k0, used, row := LongSmall(ll, cftab, k0, used, row, n, c, cycle, b);
    q := Place(ch, len, k0, used, row);
    if len == 3 { ShortRun(b, n, u, q); } else { LongRun(b, n, u, q); }
  }

  /** The rest of a run of three or more. */
  method LongSmall(ll: SmallCells, cftab: array<int>, k: int, used0: nat, row0: int, n: nat, ghost c: Column,
      ghost cycle: set<int>, ghost b: seq<int>)
      returns (len: int, k0: int, used: nat, row: int)
    requires Fetched(b, n) && used0 <= n && FeedsSmall(ll, cftab[..], c, cycle, b, used0, row0)
    ensures FeedsSmall(ll, cftab[..], c, cycle, b, used, row)
    ensures if used0 == n || b[used0] != k
      then len == 3 && used == used0 + 1 && k0 == (if used0 == n then k else b[used0])
            else used0 + 2 < |b| && len == b[used0 + 1] + 4 && used == used0 + 3 && k0 == b[used0 + 2]
  {
    var k1;
    k1, row := FetchSmall(ll, cftab, row0, c, cycle, b, used0);
    used, k0, len := used0 + 1, k, 3;
    if used == n + 1 { return; }
    if k1 != k0 { k0 := k1; return; }
    k1, k0, row := FetchTwo(ll, cftab, row, c, cycle, b, used);
    used, len := used + 2, k1 + 4;
  }

  /** The count of a run, and the byte after it. */
  method FetchTwo(ll: SmallCells, cftab: array<int>, row: int, ghost c: Column, ghost cycle: set<int>,
      ghost b: seq<int>, ghost j: nat)
      returns (k1: int, k0: int, next: int)
    requires FeedsSmall(ll, cftab[..], c, cycle, b, j, row) && j + 1 < |b|
    ensures k1 == b[j] && k0 == b[j + 1] && FeedsSmall(ll, cftab[..], c, cycle, b, j + 2, next)
  {
    k1, next := FetchSmall(ll, cftab, row, c, cycle, b, j);
    k0, next := FetchSmall(ll, cftab, next, c, cycle, b, j + 1);
  }

  /** unRLE_obuf_to_output_SMALL. It looks for room before anything else, so corrupt data comes to light
      only with room to spare, after everything before it has been counted. */
  method Small(ll: SmallCells, cftab: array<int>, p: Place, room: nat, n: nat, ghost c: Column, ghost cycle: set<int>,
      ghost b: seq<int>, ghost rest: seq<int>, ghost ends: nat) returns (corrupt: bool, q: Place, out: seq<int>)
    requires n == |c.l| && Fetched(b, n) && Owes(c, p, rest, ends)
    requires FeedsSmall(ll, cftab[..], c, cycle, b, p.used, p.row) && IsColumn(c) && b == Fetches(c)
    ensures FeedsSmall(ll, cftab[..], c, cycle, b, q.used, q.row) && Unpacked(c, rest, ends, room, q, out)
    ensures corrupt <==> |rest| < room && ends > n
    ensures ends == n && |rest| <= room ==> q.len == 0 && q.used == n + 1
  {
    corrupt, q, out := false, p, [];
    assert rest[0..] == rest;
    OwesEnd(c, p, rest, ends);
    while true
      invariant Got(c, q, out, room, rest, ends) && q.len >= 0 && q.used <= n + 2
        && FeedsSmall(ll, cftab[..], c, cycle, b, q.used, q.row)
      decreases n + 2 - q.used
    {
      q, out := GiveRun(q, out, room, c, rest, ends);
      GotEnd(c, q, out, room, rest, ends);
      if |out| == room { return; }
      if q.used == n + 1 { return; }
      if q.used > n + 1 { corrupt := true; return; }
      var r := StartSmall(ll, cftab, q, n, c, cycle, b);
      OwesNew(c, q, r, rest[|out|..], ends);
      q := r;
      GotEnd(c, q, out, room, rest, ends);
    }
  }

  // ---- many calls ----

  function Total(rooms: seq<nat>): nat {
    if rooms == [] then 0 else rooms[0] + Total(rooms[1..])
  }

  /** What the calls count as put out, given what is to come and whether the block is corrupt. */
  function FastCalls(rest: seq<int>, bad: bool, rooms: seq<nat>): seq<int> {
    if rooms == [] || (bad && |rest| <= rooms[0]) then []
    else
      var k := if rooms[0] < |rest| then rooms[0] else |rest|;
      rest[..k] + FastCalls(rest[k..], bad, rooms[1..])
  }

  function Prefix(rest: seq<int>, k: nat): seq<int> { if k < |rest| then rest[..k] else rest }

  /** However the output space is cut up, the same bytes come out. */
  lemma {:induction false} CutsDoNotMatter(rest: seq<int>, rooms: seq<nat>)
    ensures FastCalls(rest, false, rooms) == Prefix(rest, Total(rooms))
    decreases |rooms|
  {
    if rooms != [] {
      var k := if rooms[0] < |rest| then rooms[0] else |rest|;
      CutsDoNotMatter(rest[k..], rooms[1..]);
      assert Prefix(rest, Total(rooms)) == rest[..k] + Prefix(rest[k..], Total(rooms[1..]));
    }
  }

  /** All that a block puts out, and whether it ends in the middle of a run. */
  ghost function BlockOut(c: Column): seq<int>
    requires IsColumn(c)
  {
    Rest(Fetches(c), |c.l|, 0)
  }

  ghost predicate EndsInRun(c: Column)
    requires IsColumn(c)
  {
    EndsAt(Fetches(c), |c.l|, 0) > |c.l|
  }

  /** What FAST counts as put out by calls with these rooms. */
  ghost function Delivered(c: Column, rooms: seq<nat>): seq<int>
    requires IsColumn(c)
  {
    FastCalls(BlockOut(c), EndsInRun(c), rooms)
  }

  lemma {:induction false} RunInRest(b: seq<int>, n: nat, u: nat)
    requires Fetched(b, n) && u < n
    ensures Rest(b, n, u) != [] && (EndsAt(b, n, u) > n ==> |Rest(b, n, u)| >= 4)
    decreases n - u
  {
    var r := NextRun(b, n, u);
    assert Rest(b, n, u) == Repeat(b[u], r.0) + Rest(b, n, r.1) && EndsAt(b, n, u) == EndsAt(b, n, r.1);
    if r.1 < n { RunInRest(b, n, r.1); } else if r.1 > n { assert r.0 == b[u + 4] + 4 >= 4; }
  }

  /** What FAST delivers of a block depends on the total room alone exactly when the block does not end in the middle
      of a run; then it is as much of the block as there is room for. */
  lemma CutsMatterWhenCorrupt(c: Column)
    requires IsColumn(c)
    ensures (forall r, q {:trigger Delivered(c, r), Delivered(c, q)} ::
      Total(r) == Total(q) ==> Delivered(c, r) == Delivered(c, q))
      <==> !EndsInRun(c)
    ensures !EndsInRun(c) ==> forall r {:trigger Delivered(c, r)} :: Delivered(c, r) == Prefix(BlockOut(c), Total(r))
  {
    var rest := BlockOut(c);
    if EndsInRun(c) {
      RunInRest(Fetches(c), |c.l|, 0);
      LastByteLost(c, rest);
    } else {
      forall r {:trigger Delivered(c, r)} ensures Delivered(c, r) == Prefix(rest, Total(r)) {
        CutsDoNotMatter(rest, r);
      }
    }
  }

  lemma LastByteLost(c: Column, rest: seq<int>)
    requires IsColumn(c) && rest == BlockOut(c) && |rest| >= 4 && EndsInRun(c)
    ensures exists r, q :: Total(r) == Total(q) && Delivered(c, r) != Delivered(c, q)
  {
    var m := |rest| - 1;
    var r: seq<nat>, q: seq<nat> := [m + 1], [m, 1];
    assert r[1..] == [] && q[1..] == [1] && [1][1..] == [];
    assert Total([1]) == 1 && Total(r) == m + 1 && Total(q) == m + 1;
    assert FastCalls(rest, true, r) == [];
    assert FastCalls(rest, true, q) == rest[..m] + FastCalls(rest[m..], true, [1]);
    assert |Delivered(c, q)| >= m > 0 == |Delivered(c, r)|;
  }

  /** Four equal bytes without a count are such a block. */
  lemma FourEqual(c: Column)
    requires IsColumn(c) && c.l == [7, 7, 7, 7]
    ensures EndsInRun(c) && BlockOut(c) == [7, 7, 7, 7, 7, 7, 7, 7, 7, 7, 7]
  {
    var b := Fetches(c);
    assert forall j {:trigger b[j]} :: 0 <= j < 6 ==> b[j] == 7;
    assert NextRun(b, 4, 0) == (11, 5);
    assert EndsAt(b, 4, 0) == EndsAt(b, 4, 5) == 5;
    assert Rest(b, 4, 0) == Repeat(7, 11) + Rest(b, 4, 5);
    assert Rest(b, 4, 5) == [];
  }

  /** The whole block, over any sequence of calls. */
  method FastAll(tt: array<int>, rooms: seq<nat>, n: nat, maxBlock: nat, first: Place, ghost c: Column)
      returns (out: seq<int>, corrupt: bool)
    requires FastFor(tt[..], c, maxBlock) && n == |c.l| && first == Begin(c)
    ensures out == Delivered(c, rooms)
    ensures corrupt <==> EndsInRun(c) && Total(rooms) >= |BlockOut(c)|
  {
    ghost var b := Fetches(c);
    ghost var rest, ends := Rest(b, n, 0), EndsAt(b, n, 0);
    BeginLeft(c);
    OwesOpens(c, first, rest, ends);
    RunInRest(b, n, 0);
    out, corrupt := FastLoop(tt, rooms, n, maxBlock, first, c, b, rest, ends);
  }

  method FastLoop(tt: array<int>, rooms: seq<nat>, n: nat, maxBlock: nat, first: Place, ghost c: Column,
      ghost b: seq<int>, ghost all: seq<int>, ghost ends: nat) returns (out: seq<int>, corrupt: bool)
    requires n == |c.l| && Fetched(b, n) && Owes(c, first, all, ends)
      && FeedsFast(tt[..], c, maxBlock, b, first.used, first.row)
    requires IsColumn(c) && b == Fetches(c) && all != []
    ensures out == FastCalls(all, ends > n, rooms) && (corrupt <==> ends > n && Total(rooms) >= |all|)
  {
    var p, k := first, 0;
    out, corrupt := [], false;
    ghost var rest := all;
    assert rooms[0..] == rooms;
    while k < |rooms|
      invariant 0 <= k <= |rooms| && Owes(c, p, rest, ends) && FeedsFast(tt[..], c, maxBlock, b, p.used, p.row)
        && !corrupt
      invariant FastCalls(all, ends > n, rooms) == out + FastCalls(rest, ends > n, rooms[k..])
      invariant ends > n ==> rest != [] && Total(rooms) - |all| == Total(rooms[k..]) - |rest|
    {
      assert rooms[k..][0] == rooms[k] && rooms[k..][1..] == rooms[k + 1..];
      var more;
      corrupt, p, more := Fast(tt, p, rooms[k], n, maxBlock, c, b, rest, ends);
      OneCall(out, rest, ends > n, rooms[k..], |more|);
      if corrupt { return; }
      rest := rest[|more|..];
      out := out + more;
      k := k + 1;
    }
  }

  lemma OneCall(out: seq<int>, rest: seq<int>, bad: bool, rooms: seq<nat>, m: nat)
    requires rooms != []
    ensures bad && |rest| <= rooms[0] ==> out + FastCalls(rest, bad, rooms) == out
    ensures !(bad && |rest| <= rooms[0]) && m == (if rooms[0] < |rest| then rooms[0] else |rest|) ==>
              out + FastCalls(rest, bad, rooms) == (out + rest[..m]) + FastCalls(rest[m..], bad, rooms[1..])
  {
  }

  /** The same for SMALL, which loses nothing. */
  method SmallLoop(ll: SmallCells, cftab: array<int>, rooms: seq<nat>, n: nat, first: Place, ghost c: Column,
      ghost cycle: set<int>, ghost b: seq<int>,
      ghost all: seq<int>, ghost ends: nat) returns (out: seq<int>, corrupt: bool)
    requires n == |c.l| && Fetched(b, n) && Owes(c, first, all, ends)
      && FeedsSmall(ll, cftab[..], c, cycle, b, first.used, first.row)
    requires IsColumn(c) && b == Fetches(c)
    ensures out == Prefix(all, Total(rooms)) && (corrupt <==> ends > n && Total(rooms) > |all|)
  {
    var p, k := first, 0;
    out, corrupt := [], false;
    ghost var rest := all;
    assert rooms[0..] == rooms;
    while k < |rooms|
      invariant 0 <= k <= |rooms| && Owes(c, p, rest, ends) && FeedsSmall(ll, cftab[..], c, cycle, b, p.used, p.row)
        && !corrupt
      invariant Prefix(all, Total(rooms)) == out + Prefix(rest, Total(rooms[k..]))
      invariant ends > n ==> Total(rooms) - |all| == Total(rooms[k..]) - |rest|
    {
      assert rooms[k..][0] == rooms[k] && rooms[k..][1..] == rooms[k + 1..];
      var more;
      corrupt, p, more := Small(ll, cftab, p, rooms[k], n, c, cycle, b, rest, ends);
      PrefixSplit(out, rest, rooms[k], Total(rooms[k + 1..]), |more|);
      rest := rest[|more|..];
      out := out + more;
      k := k + 1;
      if corrupt { NothingLeft(out, rest, Total(rooms[k..])); return; }
    }
    NothingLeft(out, [], 0);
  }

  lemma PrefixSplit(out: seq<int>, rest: seq<int>, room: nat, total: nat, k: nat)
    requires k == if room < |rest| then room else |rest|
    ensures out + Prefix(rest, room + total) == (out + rest[..k]) + Prefix(rest[k..], total)
  {
  }

  lemma NothingLeft(out: seq<int>, rest: seq<int>, total: nat)
    ensures rest == [] || total == 0 ==> out + Prefix(rest, total) == out
    ensures out + Prefix([], total) == out && forall r: seq<int> {:trigger Prefix(r, 0)} :: out + Prefix(r, 0) == out
  {
  }
}
