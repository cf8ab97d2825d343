/** SearchContext::next and prev: pruned walks with an index stack that step through the found items in
    pre-order and back. */
module DirectoryCursor {
  import opened Sequences
  import opened DirectoryTree

  /** The directory at the end of a path. */
  predicate ValidPath(root: Dir, path: seq<int>)
    decreases |path|, 0
  {
    path == [] || (ValidPath(root, path[..|path| - 1]) && 0 <= path[|path| - 1] < |At(root, path[..|path| - 1]).dirs|)
  }

  function At(root: Dir, path: seq<int>): Dir
    requires ValidPath(root, path)
    decreases |path|, 1
  {
    if path == [] then root else At(root, path[..|path| - 1]).dirs[path[|path| - 1]]
  }

  lemma ChildPath(root: Dir, path: seq<int>, k: int)
    requires ValidPath(root, path) && 0 <= k < |At(root, path).dirs|
    ensures ValidPath(root, path + [k]) && At(root, path + [k]) == At(root, path).dirs[k]
    ensures (path + [k])[..|path|] == path && (path + [k])[|path|] == k
  {
    assert (path + [k])[..|path|] == path;
  }

  lemma {:induction false} ConsistentAt(root: Dir, path: seq<int>)
    requires ValidPath(root, path) && Consistent(root)
    ensures Consistent(At(root, path))
    decreases |path|
  {
    if path != [] {
      ConsistentAt(root, path[..|path| - 1]);
      var p := At(root, path[..|path| - 1]);
      assert Consistent(p.dirs[path[|path| - 1]]);
    }
  }

  lemma Flat(a: seq<Item>, c: seq<Item>, e: seq<Item>, f: seq<Item>)
    ensures (a + (c + e)) + f == a + (c + (e + f))
  {
  }

  lemma Flat3(a: seq<Item>, o: seq<Item>, c: seq<Item>, e: seq<Item>)
    ensures ((a + o) + c) + e == a + (o + (c + e))
  {
  }

  lemma Flat5(h: seq<Item>, f: seq<Item>, s: seq<Item>, t: seq<Item>, r: seq<Item>)
    ensures ((h + f) + s) + (t + r) == h + (f + ((s + t) + r)) && h + (f + ((s + t) + r)) == h + ((f + (s + t)) + r)
  {
  }

  // ---- what comes after ----

  /** All that comes after the directory at path and its contents. */
  ghost function Rest(root: Dir, path: seq<int>): seq<Item>
    requires ValidPath(root, path)
    decreases |path|, 0
  {
    if path == [] then [] else NextSubs(root, path[..|path| - 1], path[|path| - 1] + 1)
  }

  /** From subdirectory k of the directory at path on. */
  ghost function NextSubs(root: Dir, path: seq<int>, k: int): seq<Item>
    requires ValidPath(root, path) && 0 <= k <= |At(root, path).dirs|
    decreases |path|, 1
  {
    var d := At(root, path);
    SubItems(d, path, k, |d.dirs|) + Rest(root, path)
  }

  /** From file i of the directory at path on. */
  ghost function NextFiles(root: Dir, path: seq<int>, i: int): seq<Item>
    requires ValidPath(root, path) && 0 <= i <= |At(root, path).files|
  {
    var d := At(root, path);
    FileItems(d.files, path, i, |d.files|) + NextSubs(root, path, 0)
  }

  lemma FileStep(root: Dir, path: seq<int>, i: int)
    requires ValidPath(root, path) && 0 <= i <= |At(root, path).files|
    ensures i == |At(root, path).files| ==> NextFiles(root, path, i) == NextSubs(root, path, 0)
    ensures i < |At(root, path).files| ==>
      NextFiles(root, path, i) ==
        (if At(root, path).files[i] then [FileItem(path, i)] else []) + NextFiles(root, path, i + 1)
  {
    var files := At(root, path).files;
    var subs := NextSubs(root, path, 0);
    if i < |files| {
      FirstFile(files, path, i);
      Assoc(if files[i] then [FileItem(path, i)] else [], FileItems(files, path, i + 1, |files|), subs);
    } else {
      assert FileItems(files, path, i, |files|) == [] && [] + subs == subs;
    }
  }

  lemma FirstFile(files: seq<bool>, path: seq<int>, i: int)
    requires 0 <= i < |files|
    ensures FileItems(files, path, i, |files|) ==
      (if files[i] then [FileItem(path, i)] else []) + FileItems(files, path, i + 1, |files|)
  {
    FileSplit(files, path, i, i + 1, |files|);
    assert FileItems(files, path, i, i + 1) == if files[i] then [FileItem(path, i)] else [];
  }

  /** At subdirectory k: the directory itself if it is found, then what is in it, then the next one. */
  lemma SubStep(root: Dir, path: seq<int>, k: int)
    requires ValidPath(root, path) && 0 <= k < |At(root, path).dirs|
    ensures ValidPath(root, path + [k])
    ensures NextSubs(root, path, k) == Own(At(root, path).dirs[k], path + [k]) + NextFiles(root, path + [k], 0)
  {
    ChildPath(root, path, k);
    var d, p := At(root, path), path + [k];
    var child := d.dirs[k];
    FirstSub(d, path, k);
    var x, f := Own(child, p) + Contents(child, p), NextSubs(root, path, k + 1);
    Assoc(x, SubItems(d, path, k + 1, |d.dirs|), Rest(root, path));
    assert Rest(root, p) == f;
    Flat(Own(child, p), FileItems(child.files, p, 0, |child.files|), SubItems(child, p, 0, |child.dirs|), f);
  }

  lemma FirstSub(d: Dir, path: seq<int>, k: int)
    requires 0 <= k < |d.dirs|
    ensures SubItems(d, path, k, |d.dirs|) ==
      (Own(d.dirs[k], path + [k]) + Contents(d.dirs[k], path + [k])) + SubItems(d, path, k + 1, |d.dirs|)
  {
    SubSplit(d, path, k, k + 1, |d.dirs|);
    var x := Own(d.dirs[k], path + [k]) + Contents(d.dirs[k], path + [k]);
    assert SubItems(d, path, k, k + 1) == [] + x == x;
  }

  lemma SubEnd(root: Dir, path: seq<int>)
    requires ValidPath(root, path)
    ensures NextSubs(root, path, |At(root, path).dirs|) == Rest(root, path)
  {
  }

  /** Nothing is found in a directory without FLAG_HAS_FOUND. */
  lemma Pruned(root: Dir, path: seq<int>)
    requires ValidPath(root, path) && Consistent(root) && !At(root, path).hasFound
    ensures NextFiles(root, path, 0) == Rest(root, path)
  {
    ConsistentAt(root, path);
    var d := At(root, path);
    HasFoundMeans(d, path);
    assert FileItems(d.files, path, 0, |d.files|) + SubItems(d, path, 0, |d.dirs|) == [];
  }

  // ---- what comes before ----

  /** All before the contents of the directory at path, itself included. */
  ghost function Head(root: Dir, path: seq<int>): seq<Item>
    requires ValidPath(root, path)
    decreases |path|, 0
  {
    if path == [] then [] else PrevSubs(root, path[..|path| - 1], path[|path| - 1] - 1) + Own(At(root, path), path)
  }

  /** Up to file i of the directory at path. */
  ghost function PrevFiles(root: Dir, path: seq<int>, i: int): seq<Item>
    requires ValidPath(root, path) && -1 <= i < |At(root, path).files|
    decreases |path|, 1
  {
    Head(root, path) + FileItems(At(root, path).files, path, 0, i + 1)
  }

  /** Up to subdirectory k and its contents. */
  ghost function PrevSubs(root: Dir, path: seq<int>, k: int): seq<Item>
    requires ValidPath(root, path) && -1 <= k < |At(root, path).dirs|
    decreases |path|, 2
  {
    var d := At(root, path);
    PrevFiles(root, path, |d.files| - 1) + SubItems(d, path, 0, k + 1)
  }

  lemma FileBack(root: Dir, path: seq<int>, i: int)
    requires ValidPath(root, path) && -1 <= i < |At(root, path).files|
    ensures i == -1 ==> PrevFiles(root, path, i) == Head(root, path)
    ensures i >= 0 ==>
      PrevFiles(root, path, i) ==
        PrevFiles(root, path, i - 1) + if At(root, path).files[i] then [FileItem(path, i)] else []
  {
  }

  lemma SubBack(root: Dir, path: seq<int>, k: int)
    requires ValidPath(root, path) && -1 <= k < |At(root, path).dirs|
    ensures k == -1 ==> PrevSubs(root, path, k) == PrevFiles(root, path, |At(root, path).files| - 1)
    ensures k >= 0 ==>
      ValidPath(root, path + [k])
        && PrevSubs(root, path, k) == PrevSubs(root, path + [k], |At(root, path + [k]).dirs| - 1)
    ensures k >= 0 ==> Head(root, path + [k]) == PrevSubs(root, path, k - 1) + Own(At(root, path).dirs[k], path + [k])
  {
    if k >= 0 {
      ChildPath(root, path, k);
      var d, p := At(root, path), path + [k];
      var child := d.dirs[k];
      var a, o, c, e := PrevSubs(root, path, k - 1), Own(child, p), FileItems(child.files, p, 0, |child.files|),
        SubItems(child, p, 0, |child.dirs|);
      var x, y := PrevFiles(root, path, |d.files| - 1), SubItems(d, path, 0, k);
      assert SubItems(d, path, 0, k + 1) == y + (o + (c + e));
      Assoc(x, y, o + (c + e));
      assert Head(root, p) == a + o;
      Flat3(a, o, c, e);
    }
  }

  lemma PrunedBack(root: Dir, path: seq<int>, k: int)
    requires ValidPath(root, path) && Consistent(root) && 0 <= k < |At(root, path).dirs|
      && !At(root, path).dirs[k].hasFound
    ensures PrevSubs(root, path, k) == PrevSubs(root, path, k - 1) + Own(At(root, path).dirs[k], path + [k])
  {
    ChildPath(root, path, k);
    ConsistentAt(root, path + [k]);
    var child := At(root, path).dirs[k];
    HasFoundMeans(child, path + [k]);
    assert Own(child, path + [k]) + Contents(child, path + [k]) == Own(child, path + [k]);
  }

  // ---- the whole list ----

  ghost function All(root: Dir): seq<Item> { Contents(root, []) }

  /** Around a directory: what is before its contents, its contents, and what is after. */
  lemma Around(root: Dir, path: seq<int>, k: int)
    requires ValidPath(root, path) && 0 <= k <= |At(root, path).dirs|
    ensures PrevSubs(root, path, k - 1) + NextSubs(root, path, k) == Head(root, path) + NextFiles(root, path, 0)
  {
    var d := At(root, path);
    SubSplit(d, path, 0, k, |d.dirs|);
    var h, f, s1, s2, r := Head(root, path), FileItems(d.files, path, 0, |d.files|), SubItems(d, path, 0, k),
      SubItems(d, path, k, |d.dirs|), Rest(root, path);
    Flat5(h, f, s1, s2, r);
  }

  lemma {:induction false} HeadWhole(root: Dir, path: seq<int>)
    requires ValidPath(root, path)
    ensures Head(root, path) + NextFiles(root, path, 0) == All(root)
    decreases |path|
  {
    if path != [] {
      var q, j := path[..|path| - 1], path[|path| - 1];
      assert q + [j] == path;
      Around(root, q, j);
      HeadWhole(root, q);
      SubStep(root, q, j);
      Assoc(PrevSubs(root, q, j - 1), Own(At(root, path), path), NextFiles(root, path, 0));
    } else {
      var f, s := FileItems(root.files, [], 0, |root.files|), SubItems(root, [], 0, |root.dirs|);
      assert [] + (f + (s + [])) == f + s;
    }
  }

  /** Everything before subdirectory k and everything from it on is the whole list. */
  lemma Whole(root: Dir, path: seq<int>, k: int)
    requires ValidPath(root, path) && 0 <= k <= |At(root, path).dirs|
    ensures PrevSubs(root, path, k - 1) + NextSubs(root, path, k) == All(root)
  {
    Around(root, path, k);
    HeadWhole(root, path);
  }

  // ---- how much is left to look at ----

  ghost function Weight(d: Dir): (r: nat)
    decreases d, |d.dirs| + 1
  {
    2 + SubWeight(d, 0, |d.dirs|)
  }

  ghost function SubWeight(d: Dir, lo: int, hi: int): (r: nat)
    requires 0 <= lo && hi <= |d.dirs|
    decreases d, if hi < lo then 0 else hi - lo
  {
    if lo >= hi then 0 else SubWeight(d, lo, hi - 1) + Weight(d.dirs[hi - 1])
  }

  lemma {:induction false} WeightSplit(d: Dir, lo: int, mid: int, hi: int)
    requires 0 <= lo <= mid <= hi <= |d.dirs|
    ensures SubWeight(d, lo, hi) == SubWeight(d, lo, mid) + SubWeight(d, mid, hi)
    decreases hi - mid
  {
    if mid < hi { WeightSplit(d, lo, mid, hi - 1); }
  }

  /** What is left from subdirectory k of the directory at path. */
  ghost function Ahead(root: Dir, path: seq<int>, k: int): nat
    requires ValidPath(root, path) && 0 <= k <= |At(root, path).dirs|
    decreases |path|
  {
    SubWeight(At(root, path), k, |At(root, path).dirs|) + 1 +
      if path == [] then 0 else Ahead(root, path[..|path| - 1], path[|path| - 1] + 1)
  }

  lemma AheadDown(root: Dir, path: seq<int>, k0: int, k: int)
    requires ValidPath(root, path) && 0 <= k0 <= k < |At(root, path).dirs|
    ensures ValidPath(root, path + [k]) && Ahead(root, path + [k], 0) < Ahead(root, path, k0)
  {
    ChildPath(root, path, k);
    var d := At(root, path);
    WeightSplit(d, k0, k, |d.dirs|);
    WeightSplit(d, k, k + 1, |d.dirs|);
    assert SubWeight(d, k, k + 1) == Weight(d.dirs[k]);
  }

  lemma AheadUp(root: Dir, path: seq<int>, k0: int)
    requires ValidPath(root, path) && path != [] && 0 <= k0 <= |At(root, path).dirs|
    ensures Ahead(root, path[..|path| - 1], path[|path| - 1] + 1) < Ahead(root, path, k0)
  {
  }

  /** What is left before subdirectory k of the directory at path. */
  ghost function Behind(root: Dir, path: seq<int>, k: int): nat
    requires ValidPath(root, path) && 0 <= k <= |At(root, path).dirs|
    decreases |path|
  {
    SubWeight(At(root, path), 0, k) + 1 + if path == [] then 0 else Behind(root, path[..|path| - 1], path[|path| - 1])
  }

  lemma BehindDown(root: Dir, path: seq<int>, k: int, k0: int)
    requires ValidPath(root, path) && 0 <= k < k0 <= |At(root, path).dirs|
    ensures ValidPath(root, path + [k])
      && Behind(root, path + [k], |At(root, path + [k]).dirs|) < Behind(root, path, k0)
  {
    ChildPath(root, path, k);
    var d := At(root, path);
    WeightSplit(d, 0, k + 1, k0);
    assert SubWeight(d, 0, k + 1) == SubWeight(d, 0, k) + Weight(d.dirs[k]);
  }

  // ---- the cursor ----

  /** whatFound with dirIndex and fileIndex. */
  datatype Place = Nothing | OnFile(path: seq<int>, index: int) | OnDir(path: seq<int>)

  ghost predicate OnItem(root: Dir, c: Place) {
    match c
    case Nothing => false
    case OnFile(path, index) => ValidPath(root, path) && 0 <= index < |At(root, path).files|
      && At(root, path).files[index]
    case OnDir(path) => path != [] && ValidPath(root, path) && At(root, path).found
  }

  function ItemOf(c: Place): Item
    requires c != Nothing
  {
    match c
    case OnFile(path, index) => FileItem(path, index)
    case OnDir(path) => DirItem(path)
  }

  ghost function Later(root: Dir, c: Place): seq<Item>
    requires OnItem(root, c)
  {
    match c
    case OnFile(path, index) => NextFiles(root, path, index + 1)
    case OnDir(path) => NextFiles(root, path, 0)
  }

  ghost function Earlier(root: Dir, c: Place): seq<Item>
    requires OnItem(root, c)
  {
    match c
    case OnFile(path, index) => PrevFiles(root, path, index - 1)
    case OnDir(path) => PrevSubs(root, path[..|path| - 1], path[|path| - 1] - 1)
  }

  /** The cursor stands in the list of all found items between what is earlier and what is later. */
  lemma InList(root: Dir, c: Place)
    requires OnItem(root, c)
    ensures All(root) == Earlier(root, c) + [ItemOf(c)] + Later(root, c)
  {
    match c
    case OnFile(path, index) =>
      HeadWhole(root, path);
      FileStep(root, path, index);
      var files := At(root, path).files;
      FileSplit(files, path, 0, index, |files|);
      var h, a, b, r := Head(root, path), FileItems(files, path, 0, index), FileItems(files, path, index, |files|),
        NextSubs(root, path, 0);
      Flat4(h, a, b, r);
      assert b + r == [ItemOf(c)] + Later(root, c);
      Assoc(h + a, [ItemOf(c)], Later(root, c));
    case OnDir(path) =>
      var q, j := path[..|path| - 1], path[|path| - 1];
      assert q + [j] == path;
      Whole(root, q, j);
      SubStep(root, q, j);
      Assoc(Earlier(root, c), [ItemOf(c)], Later(root, c));
  }

  lemma Flat4(h: seq<Item>, a: seq<Item>, b: seq<Item>, r: seq<Item>)
    ensures h + ((a + b) + r) == (h + a) + (b + r)
  {
  }

  /** The root holds no found file itself. */
  ghost predicate RootClear(root: Dir) { forall i {:trigger root.files[i]} :: 0 <= i < |root.files| ==> !root.files[i] }

  /** The found files of the root itself, which come first of all. */
  ghost function RootFiles(root: Dir): seq<Item> { FileItems(root.files, [], 0, |root.files|) }

  lemma RootFilesHere(root: Dir)
    ensures forall i {:trigger RootFiles(root)[i]} :: 0 <= i < |RootFiles(root)| ==> RootFiles(root)[i].path == []
  {
    FilesDiffer(root.files, [], 0, |root.files|);
  }

  /** They are earlier than everything else. */
  lemma RootFilesFirst(root: Dir, c: Place)
    requires OnItem(root, c)
    ensures RootFiles(root) <= All(root)
    ensures c.path != [] ==> RootFiles(root) <= Earlier(root, c)
    ensures c.path == [] ==> |Earlier(root, c)| < |RootFiles(root)|
  {
    InList(root, c);
    RootFilesHere(root);
    var own, a := RootFiles(root), Earlier(root, c);
    assert All(root) == own + SubItems(root, [], 0, |root.dirs|);
    assert All(root)[|a|] == ItemOf(c);
    if c.path != [] {
      assert All(root)[..|own|] == own && All(root)[..|a|] == a && a[..|own|] == All(root)[..|own|];
    } else {
      var files := root.files;
      FileSplit(files, [], 0, c.index, |files|);
      FirstFile(files, [], c.index);
      assert a == [] + FileItems(files, [], 0, c.index);
    }
  }

  method ScanFiles(root: Dir, path: seq<int>, i: nat) returns (j: nat)
    requires ValidPath(root, path) && i <= |At(root, path).files|
    ensures i <= j <= |At(root, path).files| && NextFiles(root, path, i) == NextFiles(root, path, j)
    ensures j < |At(root, path).files| ==> At(root, path).files[j]
  {
    var files := At(root, path).files;
    j := i;
    while j < |files| && !files[j]
      invariant i <= j <= |files| && NextFiles(root, path, i) == NextFiles(root, path, j)
    {
      FileStep(root, path, j);
      assert [] + NextFiles(root, path, j + 1) == NextFiles(root, path, j + 1);
      j := j + 1;
    }
  }

  /** The first subdirectory from i on that is found or has something found in it. */
  method ScanDirs(root: Dir, path: seq<int>, i: nat) returns (k: nat)
    requires ValidPath(root, path) && i <= |At(root, path).dirs| && Consistent(root)
    ensures i <= k <= |At(root, path).dirs| && NextSubs(root, path, i) == NextSubs(root, path, k)
    ensures k < |At(root, path).dirs| ==> At(root, path).dirs[k].found || At(root, path).dirs[k].hasFound
  {
    var dirs := At(root, path).dirs;
    k := i;
    while k < |dirs| && !dirs[k].found && !dirs[k].hasFound
      invariant i <= k <= |dirs| && NextSubs(root, path, i) == NextSubs(root, path, k)
    {
      SkipSub(root, path, k);
      k := k + 1;
    }
  }

  lemma SkipSub(root: Dir, path: seq<int>, k: int)
    requires ValidPath(root, path) && Consistent(root) && 0 <= k < |At(root, path).dirs|
      && !At(root, path).dirs[k].hasFound
    ensures ValidPath(root, path + [k]) && Rest(root, path + [k]) == NextSubs(root, path, k + 1)
    ensures NextSubs(root, path, k) == Own(At(root, path).dirs[k], path + [k]) + NextSubs(root, path, k + 1)
  {
    RestOfChild(root, path, k);
    SubStep(root, path, k);
    PrunedChild(root, path + [k], NextSubs(root, path, k + 1));
  }

  lemma RestOfChild(root: Dir, path: seq<int>, k: int)
    requires ValidPath(root, path) && 0 <= k < |At(root, path).dirs|
    ensures ValidPath(root, path + [k]) && At(root, path + [k]) == At(root, path).dirs[k]
      && Rest(root, path + [k]) == NextSubs(root, path, k + 1)
  {
    ChildPath(root, path, k);
  }

  lemma PrunedChild(root: Dir, path: seq<int>, rest: seq<Item>)
    requires ValidPath(root, path) && Consistent(root) && !At(root, path).hasFound && Rest(root, path) == rest
    ensures NextFiles(root, path, 0) == rest
  {
    Pruned(root, path);
  }

  /** What the loop of next still has to go through is later: from the files of the directory at index when
      inFiles, and otherwise from the subdirectory that index names. */
  ghost predicate Pending(root: Dir, index: seq<int>, file: nat, inFiles: bool, later: seq<Item>) {
    if index == [] then later == []
    else if inFiles then
      ValidPath(root, index) && file <= |At(root, index).files| && NextFiles(root, index, file) == later
    else
      var p, k := index[..|index| - 1], index[|index| - 1];
      ValidPath(root, p) && 0 <= k <= |At(root, p).dirs| && NextSubs(root, p, k) == later
  }

  ghost function Todo(root: Dir, index: seq<int>, inFiles: bool): nat {
    if index == [] then 0
    else if inFiles then if ValidPath(root, index) then Ahead(root, index, 0) else 0
    else
      var p, k := index[..|index| - 1], index[|index| - 1];
      if ValidPath(root, p) && 0 <= k <= |At(root, p).dirs| then Ahead(root, p, k) else 0
  }

  /** Looks through the subdirectories from the one that index names: finds one, or goes down, or up. */
  method SearchSubs(root: Dir, index: seq<int>, ghost later: seq<Item>)
      returns (c: Place, next: seq<int>, inFiles: bool)
    requires Consistent(root) && index != [] && Pending(root, index, 0, false, later)
    ensures c != Nothing ==> later != [] && OnItem(root, c) && c.path != [] && ItemOf(c) == later[0]
    ensures c == Nothing ==>
      Pending(root, next, 0, inFiles, later) && Todo(root, next, inFiles) < Todo(root, index, false)
  {
    c, inFiles := Nothing, false;
    var path := index[..|index| - 1];
    ghost var k0 := index[|index| - 1];
    var k := ScanDirs(root, path, index[|index| - 1]);
    var dirs := At(root, path).dirs;
    next := path;
    if k < |dirs| {
      SubStep(root, path, k);
      ChildPath(root, path, k);
      if dirs[k].found { return OnDir(path + [k]), path, false; }
      AheadDown(root, path, k0, k);
      assert [] + NextFiles(root, path + [k], 0) == NextFiles(root, path + [k], 0);
      next, inFiles := path + [k], true;
    } else {
      SubEnd(root, path);
      if path != [] {
        AheadUp(root, path, k0);
        next := path[..|path| - 1] + [path[|path| - 1] + 1];
        assert next[..|path| - 1] == path[..|path| - 1];
      }
    }
  }

  /** The loop of next. */
  method Forward(root: Dir, index0: seq<int>, file0: nat, inFiles0: bool, ghost later: seq<Item>) returns (c: Place)
    requires Consistent(root) && index0 != [] && Pending(root, index0, file0, inFiles0, later)
    ensures if later == [] then c == Nothing else OnItem(root, c) && c.path != [] && ItemOf(c) == later[0]
  {
    var index, inFiles := index0, inFiles0;
    var file: nat := file0;
    while index != []
      invariant Pending(root, index, file, inFiles, later)
      decreases Todo(root, index, inFiles)
    {
      if inFiles {
        var j := ScanFiles(root, index, file);
        FileStep(root, index, j);
        if j < |At(root, index).files| { return OnFile(index, j); }
        assert (index + [0])[..|index|] == index;
        index := index + [0];
      }
      c, index, inFiles := SearchSubs(root, index, later);
      if c != Nothing { return; }
      file := 0;
    }
    c := Nothing;
  }

  // ---- backwards ----

  method ScanFilesBack(root: Dir, path: seq<int>, i: int) returns (j: int)
    requires ValidPath(root, path) && -1 <= i < |At(root, path).files|
    ensures -1 <= j <= i && PrevFiles(root, path, i) == PrevFiles(root, path, j) && (j >= 0 ==> At(root, path).files[j])
  {
    var files := At(root, path).files;
    j := i;
    while j >= 0 && !files[j]
      invariant -1 <= j <= i && PrevFiles(root, path, i) == PrevFiles(root, path, j)
    {
      FileBack(root, path, j);
      assert PrevFiles(root, path, j - 1) + [] == PrevFiles(root, path, j - 1);
      j := j - 1;
    }
  }

  method ScanDirsBack(root: Dir, path: seq<int>, i: int) returns (k: int)
    requires ValidPath(root, path) && -1 <= i < |At(root, path).dirs| && Consistent(root)
    ensures -1 <= k <= i && PrevSubs(root, path, i) == PrevSubs(root, path, k)
    ensures k >= 0 ==> At(root, path).dirs[k].found || At(root, path).dirs[k].hasFound
  {
    var dirs := At(root, path).dirs;
    k := i;
    while k >= 0 && !dirs[k].found && !dirs[k].hasFound
      invariant -1 <= k <= i && PrevSubs(root, path, i) == PrevSubs(root, path, k)
    {
      PrunedBack(root, path, k);
      assert PrevSubs(root, path, k - 1) + [] == PrevSubs(root, path, k - 1);
      k := k - 1;
    }
  }

  /** What the loop of prev still has to go through, backwards, is earlier. */
  ghost predicate PendingBack(root: Dir, index: seq<int>, file: int, inFiles: bool, earlier: seq<Item>) {
    if index == [] then earlier == FileItems(root.files, [], 0, |root.files|)
    else if inFiles then
      ValidPath(root, index) && -1 <= file < |At(root, index).files| && PrevFiles(root, index, file) == earlier
    else
      var p, k := index[..|index| - 1], index[|index| - 1];
      ValidPath(root, p) && -1 <= k < |At(root, p).dirs| && PrevSubs(root, p, k) == earlier
  }

  ghost function TodoBack(root: Dir, index: seq<int>, inFiles: bool): nat {
    if index == [] then 0
    else
      var p, k := index[..|index| - 1], index[|index| - 1];
      if inFiles then if ValidPath(root, index) then Behind(root, p, k) else 0
      else if ValidPath(root, p) && -1 <= k < |At(root, p).dirs| then Behind(root, p, k + 1) else 0
  }

  /** The files of a directory, and then the directory itself; otherwise what comes before it. */
  method SearchFilesBack(root: Dir, index: seq<int>, file: int, ghost earlier: seq<Item>)
      returns (c: Place, next: seq<int>)
    requires index != [] && PendingBack(root, index, file, true, earlier)
    ensures c != Nothing ==> earlier != [] && OnItem(root, c) && c.path != [] && ItemOf(c) == earlier[|earlier| - 1]
    ensures c == Nothing ==>
      next != [] && PendingBack(root, next, 0, false, earlier)
        && TodoBack(root, next, false) == TodoBack(root, index, true)
  {
    c, next := Nothing, index;
    var j := ScanFilesBack(root, index, file);
    FileBack(root, index, j);
    if j >= 0 { return OnFile(index, j), index; }
    if At(root, index).found { return OnDir(index), index; }
    var p, k := index[..|index| - 1], index[|index| - 1];
    next := p + [k - 1];
    assert next[..|p|] == p;
    assert PrevSubs(root, p, k - 1) + [] == PrevSubs(root, p, k - 1);
  }

  /** The subdirectories, from the last on. */
  method SearchSubsBack(root: Dir, index: seq<int>, ghost earlier: seq<Item>)
      returns (c: Place, next: seq<int>, file: int, inFiles: bool)
    requires Consistent(root) && index != [] && PendingBack(root, index, 0, false, earlier)
    ensures c != Nothing ==> earlier != [] && OnItem(root, c) && c.path != [] && ItemOf(c) == earlier[|earlier| - 1]
    ensures c == Nothing ==>
      PendingBack(root, next, file, inFiles, earlier) && TodoBack(root, next, inFiles) < TodoBack(root, index, false)
  {
    var path := index[..|index| - 1];
    ghost var k0 := index[|index| - 1];
    c, file, inFiles := Nothing, 0, true;
    var k := ScanDirsBack(root, path, index[|index| - 1]);
    SubBack(root, path, k);
    next := path;
    if k >= 0 {
      ChildPath(root, path, k);
      var child := At(root, path).dirs[k];
      if child.hasFound {
        BehindDown(root, path, k, k0 + 1);
        next := path + [k] + [|child.dirs| - 1];
        IntoChild(path + [k], |child.dirs| - 1);
        inFiles := false;
      } else {
        PrunedBack(root, path, k);
        return OnDir(path + [k]), path, 0, true;
      }
    } else {
      file := |At(root, path).files| - 1;
      BehindUp(root, path, k0 + 1);
    }
  }

  lemma IntoChild(path: seq<int>, k: int)
    ensures (path + [k])[..|path|] == path && (path + [k])[|path|] == k
  {
  }

  lemma BehindUp(root: Dir, path: seq<int>, k: int)
    requires ValidPath(root, path) && 0 <= k <= |At(root, path).dirs|
    ensures Behind(root, path, k) >= 1
    ensures path != [] ==> Behind(root, path[..|path| - 1], path[|path| - 1]) < Behind(root, path, k)
  {
  }

  /** The loop of prev. */
  method Backward(root: Dir, index0: seq<int>, file0: int, inFiles0: bool, ghost earlier: seq<Item>) returns (c: Place)
    requires Consistent(root) && index0 != [] && PendingBack(root, index0, file0, inFiles0, earlier)
    ensures if earlier == RootFiles(root) then c == Nothing
            else earlier != [] && OnItem(root, c) && c.path != [] && ItemOf(c) == earlier[|earlier| - 1]
  {
    var index, file, inFiles := index0, file0, inFiles0;
    RootFilesHere(root);
    while index != []
      invariant PendingBack(root, index, file, inFiles, earlier)
      decreases TodoBack(root, index, inFiles)
    {
      if inFiles {
        c, index := SearchFilesBack(root, index, file, earlier);
        if c != Nothing { return; }
      }
      c, index, file, inFiles := SearchSubsBack(root, index, earlier);
      if c != Nothing { return; }
    }
    c := Nothing;
  }

  lemma RootFile(root: Dir, c: Place)
    requires RootClear(root) && OnItem(root, c)
    ensures c.path != []
  {
  }

  /** Where next starts to look. */
  method StepOn(root: Dir, at: Place) returns (c: Place)
    requires Consistent(root) && OnItem(root, at) && at.path != []
    ensures if Later(root, at) == [] then c == Nothing
      else OnItem(root, c) && c.path != [] && ItemOf(c) == Later(root, at)[0]
  {
    var path := at.path;
    if at.OnFile? {
      c := Forward(root, path, at.index + 1, true, Later(root, at));
    } else if At(root, path).hasFound {
      c := Forward(root, path, 0, true, Later(root, at));
    } else {
      PastDir(root, path);
      c := Forward(root, path[..|path| - 1] + [path[|path| - 1] + 1], 0, false, Later(root, at));
    }
  }

  lemma PastDir(root: Dir, path: seq<int>)
    requires Consistent(root) && OnItem(root, OnDir(path)) && !At(root, path).hasFound
    ensures Pending(root, path[..|path| - 1] + [path[|path| - 1] + 1], 0, false, Later(root, OnDir(path)))
  {
    Pruned(root, path);
    var q := path[..|path| - 1] + [path[|path| - 1] + 1];
    assert q[..|path| - 1] == path[..|path| - 1];
  }

  class SearchContext {
    const root: Dir
    var at: Place

    constructor (root: Dir, at: Place)
      ensures this.root == root && this.at == at
    {
      this.root, this.at := root, at;
    }

    /** next: to the found item after this one; false, and no change, when there is none. */
    method Next() returns (ok: bool)
      requires Consistent(root) && (at != Nothing ==> OnItem(root, at))
      modifies this
      ensures !ok ==> at == old(at)
      ensures ok ==> old(at) != Nothing && OnItem(root, at) && at.path != []
      ensures old(at) != Nothing && old(at).path != [] ==>
        (ok <==> Later(root, old(at)) != []) && (ok ==> ItemOf(at) == Later(root, old(at))[0])
      ensures old(at) != Nothing && old(at).path == [] ==> !ok
    {
      if at == Nothing || at.path == [] { return false; }
      var c := StepOn(root, at);
      ok := c != Nothing;
      if ok { at := c; }
    }

    /** prev: to the found item before this one, unless that is a file of the root. */
    method Prev() returns (ok: bool)
      requires Consistent(root) && (at != Nothing ==> OnItem(root, at))
      modifies this
      ensures !ok ==> at == old(at)
      ensures ok ==> old(at) != Nothing && OnItem(root, at) && at.path != []
      ensures old(at) != Nothing ==> (ok <==> |Earlier(root, old(at))| > |RootFiles(root)|)
      ensures ok ==> ItemOf(at) == Earlier(root, old(at))[|Earlier(root, old(at))| - 1]
    {
      if at == Nothing { return false; }
      RootFilesFirst(root, at);
      if at.path == [] { return false; }
      var c;
      var path := at.path;
      if at.OnFile? {
        c := Backward(root, path, at.index - 1, true, Earlier(root, at));
      } else {
        var q := path[..|path| - 1] + [path[|path| - 1] - 1];
        assert q[..|path| - 1] == path[..|path| - 1];
        c := Backward(root, q, 0, false, Earlier(root, at));
      }
      ok := c != Nothing;
      if ok { at := c; }
    }
  }

  /** Stepping on and back again returns to the same item. */
  lemma StepsUndo(root: Dir, c: Place, e: Place)
    requires OnItem(root, c) && OnItem(root, e) && Later(root, c) != [] && ItemOf(e) == Later(root, c)[0]
    ensures Earlier(root, e) == Earlier(root, c) + [ItemOf(c)] && Later(root, e) == Later(root, c)[1..]
  {
    InList(root, c);
    InList(root, e);
    var a, x, l := Earlier(root, c), ItemOf(c), Later(root, c);
    AllDistinct(root);
    var i, j := |a| + 1, |Earlier(root, e)|;
    assert All(root)[i] == l[0] && All(root)[j] == ItemOf(e);
    assert i == j;
    assert All(root)[..i] == a + [x] && All(root)[i + 1..] == l[1..];
  }

  /** So does stepping back and on again. */
  lemma StepsUndoBack(root: Dir, e: Place, c: Place)
    requires OnItem(root, e) && OnItem(root, c) && Earlier(root, e) != []
      && ItemOf(c) == Earlier(root, e)[|Earlier(root, e)| - 1]
    ensures Later(root, c) == [ItemOf(e)] + Later(root, e)
      && Earlier(root, c) == Earlier(root, e)[..|Earlier(root, e)| - 1]
  {
    InList(root, c);
    InList(root, e);
    var a, x, l := Earlier(root, e), ItemOf(e), Later(root, e);
    AllDistinct(root);
    var i, j := |a| - 1, |Earlier(root, c)|;
    assert All(root)[i] == a[i] && All(root)[j] == ItemOf(c);
    assert i == j;
    assert All(root)[..i] == a[..i] && All(root)[i + 1..] == [x] + l;
  }

  // ---- no item is listed twice ----

  ghost predicate Under(it: Item, path: seq<int>) {
    |path| <= |it.path| && it.path[..|path|] == path
  }

  ghost predicate Different(s: seq<Item>) { forall i, j :: 0 <= i < j < |s| ==> s[i] != s[j] }

  lemma {:induction false} FilesDiffer(files: seq<bool>, path: seq<int>, lo: int, hi: int)
    requires 0 <= lo && hi <= |files|
    ensures Different(FileItems(files, path, lo, hi))
    ensures forall x {:trigger FileItems(files, path, lo, hi)[x]} :: 0 <= x < |FileItems(files, path, lo, hi)| ==>
      var it := FileItems(files, path, lo, hi)[x]; it.FileItem? && it.path == path && lo <= it.index < hi
    decreases hi - lo
  {
    if lo < hi { FilesDiffer(files, path, lo, hi - 1); }
  }

  /** Items of subdirectories lo..hi-1 lie under their paths. */
  ghost predicate UnderSubs(s: seq<Item>, path: seq<int>, lo: int, hi: int) {
    forall x {:trigger s[x]} ::
      0 <= x < |s| ==> |path| < |s[x].path| && s[x].path[..|path|] == path && lo <= s[x].path[|path|] < hi
  }

  ghost predicate AllUnder(s: seq<Item>, path: seq<int>) {
    forall x {:trigger s[x]} :: 0 <= x < |s| ==> Under(s[x], path)
  }

  lemma {:induction false} SubsDiffer(d: Dir, path: seq<int>, lo: int, hi: int)
    requires 0 <= lo && hi <= |d.dirs|
    ensures Different(SubItems(d, path, lo, hi)) && UnderSubs(SubItems(d, path, lo, hi), path, lo, hi)
    decreases d, if hi < lo then 0 else hi - lo
  {
    if lo < hi {
      SubsDiffer(d, path, lo, hi - 1);
      ContentsDiffer(d.dirs[hi - 1], path + [hi - 1]);
      ChildDiffer(d.dirs[hi - 1], path, hi - 1);
      SubDiffers(d, path, lo, hi);
    } else {
      assert SubItems(d, path, lo, hi) == [];
    }
  }

  lemma SubDiffers(d: Dir, path: seq<int>, lo: int, hi: int)
    requires 0 <= lo < hi <= |d.dirs| && Different(SubItems(d, path, lo, hi - 1))
      && UnderSubs(SubItems(d, path, lo, hi - 1), path, lo, hi - 1)
    requires var s := Own(d.dirs[hi - 1], path + [hi - 1]) + Contents(d.dirs[hi - 1], path + [hi - 1]);
      Different(s) && UnderSubs(s, path, hi - 1, hi)
    ensures Different(SubItems(d, path, lo, hi)) && UnderSubs(SubItems(d, path, lo, hi), path, lo, hi)
  {
    var child, p := d.dirs[hi - 1], path + [hi - 1];
    LastSub(d, path, lo, hi);
    LastDiffers(SubItems(d, path, lo, hi - 1), Own(child, p) + Contents(child, p), SubItems(d, path, lo, hi), path, lo,
      hi);
  }

  lemma LastDiffers(s: seq<Item>, t: seq<Item>, all: seq<Item>, path: seq<int>, lo: int, hi: int)
    requires Different(s) && Different(t) && UnderSubs(s, path, lo, hi - 1) && UnderSubs(t, path, hi - 1, hi) && lo < hi
      && all == s + t
    ensures Different(all) && UnderSubs(all, path, lo, hi)
  {
    JoinDiffer(s, t, path, lo, hi - 1);
  }

  lemma LastSub(d: Dir, path: seq<int>, lo: int, hi: int)
    requires 0 <= lo < hi <= |d.dirs|
    ensures SubItems(d, path, lo, hi) ==
      SubItems(d, path, lo, hi - 1) + (Own(d.dirs[hi - 1], path + [hi - 1]) + Contents(d.dirs[hi - 1], path + [hi - 1]))
  {
  }

  lemma ChildDiffer(child: Dir, path: seq<int>, k: int)
    requires Different(Contents(child, path + [k])) && AllUnder(Contents(child, path + [k]), path + [k])
    requires forall x {:trigger Contents(child, path + [k])[x]} ::
      0 <= x < |Contents(child, path + [k])| ==> Contents(child, path + [k])[x] != DirItem(path + [k])
    ensures var s := Own(child, path + [k]) + Contents(child, path + [k]); Different(s) && UnderSubs(s, path, k, k + 1)
  {
    var p, s := path + [k], Own(child, path + [k]) + Contents(child, path + [k]);
    forall x {:trigger s[x]} | 0 <= x < |s|
      ensures |path| < |s[x].path| && s[x].path[..|path|] == path && k <= s[x].path[|path|] < k + 1
    {
      assert Under(s[x], p);
      assert s[x].path[..|path|] == s[x].path[..|p|][..|path|] && s[x].path[|path|] == s[x].path[..|p|][|path|];
    }
  }

  lemma JoinDiffer(s: seq<Item>, t: seq<Item>, path: seq<int>, lo: int, k: int)
    requires Different(s) && Different(t) && UnderSubs(s, path, lo, k) && UnderSubs(t, path, k, k + 1) && lo <= k
    ensures Different(s + t) && UnderSubs(s + t, path, lo, k + 1)
  {
  }

  lemma {:induction false} ContentsDiffer(d: Dir, path: seq<int>)
    ensures Different(Contents(d, path)) && AllUnder(Contents(d, path), path)
    ensures forall x {:trigger Contents(d, path)[x]} ::
      0 <= x < |Contents(d, path)| ==> Contents(d, path)[x] != DirItem(path)
    decreases d, |d.dirs| + 1
  {
    FilesDiffer(d.files, path, 0, |d.files|);
    SubsDiffer(d, path, 0, |d.dirs|);
    assert path[..|path|] == path;
  }

  lemma AllDistinct(root: Dir)
    ensures Different(All(root))
  {
    ContentsDiffer(root, []);
  }

  lemma FirstEarlier(root: Dir, c: Place)
    requires OnItem(root, c) && All(root) != [] && ItemOf(c) == All(root)[0]
    ensures Earlier(root, c) == []
  {
    InList(root, c);
    AllDistinct(root);
    assert All(root)[|Earlier(root, c)|] == ItemOf(c);
  }

  // ---- the whole walk ----

  /** What repeated next visits: every found item in pre-order, or only the first if it is a file of the root. */
  ghost function Visited(root: Dir): seq<Item> {
    if RootClear(root) || All(root) == [] then All(root) else All(root)[..1]
  }

  lemma FirstInRoot(root: Dir, first: Place)
    requires OnItem(root, first) && Earlier(root, first) == []
    ensures first.path == [] <==> !RootClear(root)
    ensures All(root) == [ItemOf(first)] + Later(root, first)
  {
    RootFilesFirst(root, first);
    NoFiles(root.files, [], 0, |root.files|);
    FromStart(root, first);
  }

  /** Starting on the first found item, repeated next visits every found item once, in pre-order, unless it stops at a
      file of the root. */
  method Visit(root: Dir, first: Place) returns (items: seq<Item>)
    requires Consistent(root) && (first == Nothing <==> All(root) == [])
    requires first != Nothing ==> OnItem(root, first) && Earlier(root, first) == []
    ensures items == Visited(root)
  {
    var s := new SearchContext(root, first);
    items := [];
    if first == Nothing { return; }
    items := [ItemOf(first)];
    FirstInRoot(root, first);
    if first.path == [] {
      var ok := s.Next();
      return;
    }
    assert [] + [ItemOf(first)] == items;
    var ok := true;
    while ok
      invariant fresh(s) && s.root == root && s.at != Nothing && OnItem(root, s.at)
        && items == Earlier(root, s.at) + [ItemOf(s.at)]
      invariant s.at.path != [] && (!ok ==> Later(root, s.at) == [])
      decreases |Later(root, s.at)|, if ok then 1 else 0
    {
      ghost var c := s.at;
      ok := s.Next();
      if ok {
        StepsUndo(root, c, s.at);
        items := items + [ItemOf(s.at)];
      }
    }
    InList(root, s.at);
    assert items + [] == items;
  }

  function Reversed(s: seq<Item>): (r: seq<Item>)
    ensures |r| == |s| && forall i {:trigger r[i]} :: 0 <= i < |s| ==> r[i] == s[|s| - 1 - i]
  {
    seq(|s|, i requires 0 <= i < |s| => s[|s| - 1 - i])
  }

  lemma ReversedMore(s: seq<Item>, x: Item)
    ensures Reversed([x] + s) == Reversed(s) + [x]
  {
  }

  /** What repeated prev visits: all but the files of the root, or the last of them when there is nothing else. */
  ghost function VisitedBack(root: Dir): seq<Item> {
    var n, own := |All(root)|, |RootFiles(root)|;
    if n == 0 then [] else if own < n then All(root)[own..] else All(root)[n - 1..]
  }

  lemma BackTo(root: Dir, c: Place)
    requires OnItem(root, c) && |Earlier(root, c)| <= |RootFiles(root)| && (c.path == [] ==> Later(root, c) == [])
    ensures [ItemOf(c)] + Later(root, c) == VisitedBack(root)
  {
    InList(root, c);
    RootFilesFirst(root, c);
    var n := |Earlier(root, c)|;
    assert All(root)[n..] == [ItemOf(c)] + Later(root, c);
  }

  /** Starting on the last found item, repeated prev visits every found item once, in reverse pre-order, but for the
      files of the root. */
  method VisitBack(root: Dir, last: Place) returns (items: seq<Item>)
    requires Consistent(root) && (last == Nothing <==> All(root) == [])
    requires last != Nothing ==> OnItem(root, last) && Later(root, last) == []
    ensures items == Reversed(VisitedBack(root))
  {
    var s := new SearchContext(root, last);
    items := [];
    if last == Nothing { return; }
    items := [ItemOf(last)];
    assert items == Reversed([ItemOf(last)] + []);
    var ok := true;
    while ok
      invariant fresh(s) && s.root == root && s.at != Nothing && OnItem(root, s.at)
        && items == Reversed([ItemOf(s.at)] + Later(root, s.at))
      invariant !ok ==> |Earlier(root, s.at)| <= |RootFiles(root)|
      invariant s.at.path == [] ==> Later(root, s.at) == []
      decreases |Earlier(root, s.at)|, if ok then 1 else 0
    {
      ok, items := PrevItem(s, items);
    }
    BackTo(root, s.at);
  }

  lemma FromStart(root: Dir, c: Place)
    requires OnItem(root, c) && Earlier(root, c) == []
    ensures All(root) == [ItemOf(c)] + Later(root, c)
  {
    InList(root, c);
    assert [] + [ItemOf(c)] + Later(root, c) == [ItemOf(c)] + Later(root, c);
  }

  /** One step back, and its item. */
  method PrevItem(s: SearchContext, items0: seq<Item>) returns (ok: bool, items: seq<Item>)
    requires Consistent(s.root) && s.at != Nothing && OnItem(s.root, s.at)
    requires items0 == Reversed([ItemOf(s.at)] + Later(s.root, s.at))
    modifies s
    ensures s.at != Nothing && OnItem(s.root, s.at) && items == Reversed([ItemOf(s.at)] + Later(s.root, s.at))
    ensures if ok then s.at.path != [] && |Earlier(s.root, s.at)| < old(|Earlier(s.root, s.at)|)
            else s.at == old(s.at) && |Earlier(s.root, s.at)| <= |RootFiles(s.root)|
  {
    items := items0;
    ghost var c := s.at;
    ok := s.Prev();
    if ok {
      StepsUndoBack(s.root, c, s.at);
      ReversedMore([ItemOf(c)] + Later(s.root, c), ItemOf(s.at));
      items := items + [ItemOf(s.at)];
    }
  }

  lemma {:induction false} LeastFile(files: seq<bool>, i: nat) returns (j: nat)
    requires i < |files| && files[i]
    ensures j <= i && files[j] && FileItems(files, [], 0, j) == []
    decreases i
  {
    NoFiles(files, [], 0, i);
    j := i;
    if FileItems(files, [], 0, i) != [] {
      var k :| 0 <= k < i && files[k];
      j := LeastFile(files, k);
    }
  }

  /** A found file in the root itself is where next stops. Nothing is missed exactly when there is no such
      file or nothing else to go to. */
  lemma RootFilesStop(root: Dir)
    ensures (forall c {:trigger OnItem(root, c)} :: OnItem(root, c) && Later(root, c) != [] ==> c.path != []) <==>
      RootClear(root) || |All(root)| <= 1
  {
    if !RootClear(root) {
      var i :| 0 <= i < |root.files| && root.files[i];
      var j := LeastFile(root.files, i);
      var c := OnFile([], j);
      assert OnItem(root, c);
      InList(root, c);
      assert Earlier(root, c) == [];
    }
    forall c {:trigger OnItem(root, c)} |
      OnItem(root, c) && Later(root, c) != [] && (RootClear(root) || |All(root)| <= 1)
      ensures c.path != []
    {
      InList(root, c);
      if RootClear(root) { RootFile(root, c); }
    }
  }

  /** Two found files in the root: the second is not visited. */
  lemma TwoRootFiles()
    ensures var root := Dir([true, true], [], false, true);
      && Consistent(root) && All(root) == [FileItem([], 0), FileItem([], 1)] && Visited(root) == [FileItem([], 0)]
  {
    var root := Dir([true, true], [], false, true);
    assert FileItems(root.files, [], 0, 1) == [FileItem([], 0)];
    assert FileItems(root.files, [], 0, 2) == [FileItem([], 0), FileItem([], 1)];
    assert root.files[0];
  }
}
