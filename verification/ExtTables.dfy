/** The extension tables of AdcHub, and a search that is read wrongly with them. */
module ExtTables {
  import opened ExtGroups
  import opened ExtQuery
  import Permutations

  /** All extensions of the tables in alphabetical order, each with the number of its table: 0 audio, 1 archives,
      2 documents, 3 programs, 4 pictures, 5 video. They are
      3gp 7z ace ape app arj asf asx avi bat bmp bz2 cdr cmd com divx dll doc docx eps exe flac flv gif gz htm html
      ico img jar jpeg jpg lha lzh m4a mid mkv mov mp3 mp4 mpc mpeg mpg msi nfo odf odp ods odt ogg ogm pdf png ppt
      pptx ps ps1 psd pxp qt ra rar rm rmvb rtf sfw swf tar tga tif txt vbs vob wav webm webp wma wmv wsf xls xlsx xml
      xps z zip. */
  function Owner(x: int): int {
    if x in {3, 21, 34, 35, 38, 40, 49, 60, 73, 76} then 0
    else if x in {1, 2, 5, 11, 24, 32, 33, 61, 67, 83, 84} then 1
    else if x in {17, 18, 25, 26, 44, 45, 46, 47, 48, 51, 53, 54, 64, 70, 79, 80, 81, 82} then 2
    else if x in {4, 9, 13, 14, 16, 20, 29, 43, 56, 71, 78} then 3
    else if x in {10, 12, 19, 23, 27, 28, 30, 31, 52, 55, 57, 65, 68, 69, 75} then 4
    else 5
  }

  function Owners(): (r: seq<int>)
    ensures |r| == 85 && forall x {:trigger r[x]} :: 0 <= x < 85 ==> r[x] == Owner(x)
  {
    seq(85, x => Owner(x))
  }

  /** Those of the first n that have a property. */
  function Select(n: nat, p: int -> bool): seq<int> {
    if n == 0 then [] else Select(n - 1, p) + if p(n - 1) then [n - 1] else []
  }

  lemma {:induction false} SelectHas(n: nat, p: int -> bool)
    ensures Sorted(Select(n, p)) && forall x {:trigger x in Select(n, p)} :: x in Select(n, p) <==> 0 <= x < n && p(x)
    decreases n
  {
    if n > 0 {
      SelectHas(n - 1, p);
      SortedMore(Select(n - 1, p), n - 1);
    }
  }

  /** The table with number g: AdcHub::searchExts[g]. */
  function Table(owners: seq<int>, g: int): seq<int> { Select(|owners|, x => 0 <= x < |owners| && owners[x] == g) }

  function Tables(owners: seq<int>): seq<seq<int>> {
    [Table(owners, 0), Table(owners, 1), Table(owners, 2), Table(owners, 3), Table(owners, 4), Table(owners, 5)]
  }

  lemma TableHas(owners: seq<int>, g: int)
    ensures Sorted(Table(owners, g)) && forall x {:trigger x in Table(owners, g)} :: x in Table(owners, g) <==>
      0 <= x < |owners| && owners[x] == g
  {
    SelectHas(|owners|, x => 0 <= x < |owners| && owners[x] == g);
  }

  lemma TableAt(owners: seq<int>, g: int)
    requires 0 <= g < 6
    ensures Tables(owners)[g] == Table(owners, g)
  {
  }

  /** The tables are as the code needs them: sorted, and no extension in two. */
  lemma TablesGood(owners: seq<int>)
    ensures GoodGroups(Tables(owners))
  {
    var t := Tables(owners);
    forall g {:trigger t[g]} | 0 <= g < |t| ensures Sorted(t[g]) {
      TableAt(owners, g);
      TableHas(owners, g);
    }
    forall g, h, x {:trigger x in t[g], t[h]} | 0 <= g < |t| && 0 <= h < |t| && g != h && x in t[g] ensures x !in t[h] {
      TableAt(owners, g);
      TableAt(owners, h);
      TableHas(owners, g);
      TableHas(owners, h);
    }
  }

  // ---- two tables with one extension too much each ----

  /** All of tables 0 and 5 but x and y. */
  function AllBut(owners: seq<int>, x: int, y: int): seq<int> {
    Select(|owners|, z => 0 <= z < |owners| && (owners[z] == 0 || owners[z] == 5) && z != x && z != y)
  }

  lemma AllButHas(owners: seq<int>, x: int, y: int)
    ensures Sorted(AllBut(owners, x, y))
    ensures forall z {:trigger z in AllBut(owners, x, y)} ::
      z in AllBut(owners, x, y) <==> 0 <= z < |owners| && (owners[z] == 0 || owners[z] == 5) && z != x && z != y
  {
    SelectHas(|owners|, z => 0 <= z < |owners| && (owners[z] == 0 || owners[z] == 5) && z != x && z != y);
  }

  /** x is in table 0 and y in table 5, y being the first of all and something in table 5 greater than x; tables 1 to 4
      have three extensions each, and table 5 three more. */
  ghost predicate Crossed(owners: seq<int>, x: int, y: int, z: int, some: seq<seq<int>>) {
    && 0 == y < x < z < |owners| && owners[x] == 0 && owners[y] == 5 && owners[z] == 5 && |some| == 6
    && forall g {:trigger some[g]} :: 1 <= g < 6 ==> Three(owners, g, some[g], y)
  }

  ghost predicate Three(owners: seq<int>, g: int, s: seq<int>, y: int) {
    |s| == 3 && y < s[0] < s[1] < s[2] < |owners| && 0 <= y && owners[s[0]] == owners[s[1]] == owners[s[2]] == g
  }

  /** What is too much in the tables. */
  lemma OneTooMuch(owners: seq<int>, g: int, x: int, y: int)
    requires (g == 0 && 0 <= x < |owners| && owners[x] == 0 && (0 <= y < |owners| ==> owners[y] != 0))
          || (g == 5 && 0 <= y < |owners| && owners[y] == 5 && (0 <= x < |owners| ==> owners[x] != 5))
    ensures Minus(Table(owners, g), AllBut(owners, x, y)) == [if g == 0 then x else y]
    ensures |Extra(Table(owners, g), AllBut(owners, x, y))| <= 2
  {
    var z, orig := if g == 0 then x else y, AllBut(owners, x, y);
    TableHas(owners, g);
    AllButHas(owners, x, y);
    MinusHas(Table(owners, g), orig);
    SortedUnique(Minus(Table(owners, g), orig), [z]);
    assert Extra(Table(owners, g), orig) == {z};
  }

  lemma ThreeTooMuch(owners: seq<int>, g: int, s: seq<int>, x: int, y: int)
    requires 1 <= g < 5 && Three(owners, g, s, y)
    ensures |Extra(Table(owners, g), AllBut(owners, x, y))| > 2
  {
    TableHas(owners, g);
    AllButHas(owners, x, y);
    var many := {s[0], s[1], s[2]};
    assert many <= Extra(Table(owners, g), AllBut(owners, x, y));
    Permutations.SubsetCardinality(many, Extra(Table(owners, g), AllBut(owners, x, y)));
  }

  /** What the sender chooses. */
  lemma CrossedChosen(owners: seq<int>, x: int, y: int, z: int, some: seq<seq<int>>, gr: seq<bool>, rx: seq<int>,
      ex: seq<int>)
    requires Crossed(owners, x, y, z, some) && |gr| <= 6 && (|gr| == 6 || |ex| <= 2)
    requires var t, orig := Tables(owners), AllBut(owners, x, y);
      Means(orig, gr, t, rx, ex) && RightlyChosen(orig, gr, t)
    ensures gr == [true, false, false, false, false, true]
  {
    var t, orig := Tables(owners), AllBut(owners, x, y);
    if |gr| < 6 { VideoLeft(owners, x, y, z, some, gr, rx, ex); }
    forall g {:trigger gr[g]} | 0 <= g < |gr| ensures gr[g] <==> g == 0 || g == 5 {
      TableAt(owners, g);
      if g == 0 || g == 5 { OneTooMuch(owners, g, x, y); } else { ThreeTooMuch(owners, g, some[g], x, y); }
    }
  }

  lemma VideoLeft(owners: seq<int>, x: int, y: int, z: int, some: seq<seq<int>>, gr: seq<bool>, rx: seq<int>,
      ex: seq<int>)
    requires Crossed(owners, x, y, z, some) && |gr| < 6 && Means(AllBut(owners, x, y), gr, Tables(owners), rx, ex)
    ensures |ex| > 2
  {
    var t, orig, s := Tables(owners), AllBut(owners, x, y), some[5];
    AllButHas(owners, x, y);
    TablesGood(owners);
    TableAt(owners, 5);
    TableHas(owners, 5);
    forall v | v in {s[0], s[1], s[2]} ensures v in ex {
      assert v in orig && v in t[5];
      Apart(gr, t, 5, v);
      assert Asked(v, gr, t, rx, ex);
    }
    assert s[0] in {s[0], s[1], s[2]} && s[1] in {s[0], s[1], s[2]} && s[2] in {s[0], s[1], s[2]};
    ThreeIn(ex, s[0], s[1], s[2]);
  }

  lemma ThreeIn(s: seq<int>, a: int, b: int, c: int)
    requires a in s && b in s && c in s && a < b < c
    ensures |s| > 2
  {
    var i :| 0 <= i < |s| && s[i] == a;
    var j :| 0 <= j < |s| && s[j] == b;
    var k :| 0 <= k < |s| && s[k] == c;
  }

  /** The list of the receiver. */
  lemma CrossedListed(owners: seq<int>, x: int, y: int, z: int, some: seq<seq<int>>, gr: seq<bool>)
    requires Crossed(owners, x, y, z, some) && gr == [true, false, false, false, false, true]
    ensures Listed(gr, Tables(owners)) == Table(owners, 5) + Table(owners, 0)
      && RxOf(gr, Tables(owners), AllBut(owners, x, y)) == [y, x]
  {
    OneTooMuch(owners, 0, x, y);
    OneTooMuch(owners, 5, x, y);
    TableAt(owners, 0);
    TableAt(owners, 5);
    FirstAndLast(gr, Tables(owners), AllBut(owners, x, y));
  }

  lemma FirstAndLast(gr: seq<bool>, groups: seq<seq<int>>, orig: seq<int>)
    requires gr == [true, false, false, false, false, true] && |groups| == 6
    ensures Listed(gr, groups) == groups[5] + groups[0]
      && RxOf(gr, groups, orig) == Minus(groups[5], orig) + Minus(groups[0], orig)
  {
    var f := gr[..5];
    assert forall h {:trigger f[h]} :: 0 <= h < 5 ==> (f[h] <==> h == 0);
    OnlyOne(f, groups, orig, 0);
  }

  /** One extension to take out, behind a greater one. */
  lemma {:induction false} Behind(a: seq<int>, x: int, i: nat)
    requires i < |a| && x < a[i] && x in a && x !in a[..i]
    ensures x in Difference(a, [x])
    decreases i
  {
    if i > 0 {
      assert a[0] in a[..i];
      if a[0] < x {
        assert a[1..][..i - 1] == a[..i][1..];
        assert a == [a[0]] + a[1..];
        Behind(a[1..], x, i - 1);
      }
    }
  }

  /** Then x is not taken out: what is greater comes before it. */
  lemma CrossedWrong(owners: seq<int>, x: int, y: int, z: int, some: seq<seq<int>>)
    requires Crossed(owners, x, y, z, some)
    ensures x in Difference(Table(owners, 5) + Table(owners, 0), [y, x]) && x !in AllBut(owners, x, y)
  {
    AllButHas(owners, x, y);
    TableHas(owners, 5);
    TableHas(owners, 0);
    var v, list := Table(owners, 5), Table(owners, 5) + Table(owners, 0);
    assert z in v && y in v;
    var i :| 0 <= i < |v| && v[i] == z;
    var j :| 0 <= j < |v| && v[j] == y;
    assert v[0] in v && v[0] == y;
    var tail := list[1..];
    assert list == [y] + tail && tail[i - 1] == z;
    assert x in tail && x !in tail[..i - 1] by {
      assert x in list;
      forall k | 0 <= k < i - 1 ensures tail[k] != x { assert tail[k] == v[k + 1] && v[k + 1] in v; }
    }
    Behind(tail, x, i - 1);
    assert [y, x][1..] == [x];
  }

  const MP3 := 38
  const MP4 := 39
  const THREE_GP := 0

  lemma Here()
    ensures Crossed(Owners(), MP3, THREE_GP, MP4, [[], [1, 2, 5], [17, 18, 25], [4, 9, 13], [10, 12, 19], [6, 7, 8]])
  {
    var some: seq<seq<int>> := [[], [1, 2, 5], [17, 18, 25], [4, 9, 13], [10, 12, 19], [6, 7, 8]];
    forall g {:trigger some[g]} | 1 <= g < 6 ensures Three(Owners(), g, some[g], THREE_GP) { }
  }

  lemma CrossedAll(owners: seq<int>, x: int, y: int, z: int, some: seq<seq<int>>, gr: seq<bool>, rx: seq<int>,
      ex: seq<int>)
    requires Crossed(owners, x, y, z, some) && |gr| <= 6 && (|gr| == 6 || |ex| <= 2)
    requires var t, orig := Tables(owners), AllBut(owners, x, y);
      Means(orig, gr, t, rx, ex) && RightlyChosen(orig, gr, t) && rx == RxOf(gr, t, orig)
    ensures Count(gr) > 0 && x in Difference(Listed(gr, Tables(owners)) + ex, rx)
  {
    CrossedChosen(owners, x, y, z, some, gr, rx, ex);
    CrossedListed(owners, x, y, z, some, gr);
    CrossedWrong(owners, x, y, z, some);
    NoneLeft(owners, x, y, gr, rx, ex);
    assert Listed(gr, Tables(owners)) + ex == Listed(gr, Tables(owners));
    assert gr[5];
  }

  lemma NoneLeft(owners: seq<int>, x: int, y: int, gr: seq<bool>, rx: seq<int>, ex: seq<int>)
    requires gr == [true, false, false, false, false, true] && Means(AllBut(owners, x, y), gr, Tables(owners), rx, ex)
    ensures ex == []
  {
    var t := Tables(owners);
    if ex != [] {
      var v := ex[0];
      assert v in ex && Asked(v, gr, t, rx, ex);
      assert v in AllBut(owners, x, y);
      AllButHas(owners, x, y);
      var g := owners[v];
      TableAt(owners, g);
      TableHas(owners, g);
    }
  }

  /** A search for all audio but mp3 and all video but 3gp gets an mp3 file. */
  method AudioAndVideo() returns (wanted: bool)
    ensures wanted && MP3 !in AllBut(Owners(), MP3, THREE_GP)
  {
    wanted := Crossing(Owners(), MP3, THREE_GP, MP4,
      [[], [1, 2, 5], [17, 18, 25], [4, 9, 13], [10, 12, 19], [6, 7, 8]]) by { Here(); }
  }

  method Crossing(owners: seq<int>, x: int, y: int, ghost z: int, ghost some: seq<seq<int>>) returns (wanted: bool)
    requires Crossed(owners, x, y, z, some)
    ensures wanted && x !in AllBut(owners, x, y)
  {
    TablesGood(owners);
    AllButHas(owners, x, y);
    ghost var s := some[5];
    ThreeIn(AllBut(owners, x, y), s[0], s[1], s[2]);
    var kept, gr, rx, ex;
    wanted, kept, gr, rx, ex := Query(AllBut(owners, x, y), Tables(owners), {x});
    CrossedAll(owners, x, y, z, some, gr, rx, ex);
  }
}
