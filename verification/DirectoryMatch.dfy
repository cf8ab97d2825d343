/** SearchContext::match: one walk with an explicit stack that replaces whatever flags there were by those of the
    new search, counts what is found and puts the cursor on the first found item; and markAsFound. */
module DirectoryMatch {
  import opened Sequences
  import opened DirectoryTree
  import opened DirectoryCursor

  // ---- changing flags in place ----

  predicate Within(d: Dir, path: seq<int>)
    decreases |path|
  {
    path == [] || (0 <= path[0] < |d.dirs| && Within(d.dirs[path[0]], path[1..]))
  }

  /** The list with the directory at path changed. */
  function Update(d: Dir, path: seq<int>, f: Dir -> Dir): Dir
    requires Within(d, path)
    decreases |path|
  {
    if path == [] then f(d) else d.(dirs := d.dirs[path[0] := Update(d.dirs[path[0]], path[1..], f)])
  }

  function Under(d: Dir, path: seq<int>): Dir
    requires Within(d, path)
    decreases |path|
  {
    if path == [] then d else Under(d.dirs[path[0]], path[1..])
  }

  // ---- the query and the flags ----

  /** The flags belong to the directory, whatever they are. */
  ghost predicate SameShape(n: Node, d: Dir)
    decreases n
  {
    |d.files| == |n.files| && |d.dirs| == |n.dirs| && forall k {:trigger d.dirs[k]} :: 0 <= k < |n.dirs| ==>
      SameShape(n.dirs[k], d.dirs[k])
  }

  predicate InNode(n: Node, path: seq<int>)
    decreases |path|
  {
    path == [] || (0 <= path[0] < |n.dirs| && InNode(n.dirs[path[0]], path[1..]))
  }

  function NodeAt(n: Node, path: seq<int>): Node
    requires InNode(n, path)
    decreases |path|
  {
    if path == [] then n else NodeAt(n.dirs[path[0]], path[1..])
  }

  predicate AnyTrue(s: seq<bool>) { exists i :: 0 <= i < |s| && s[i] }

  predicate AnyBelow(d: Dir, m: int) {
    exists k :: 0 <= k < m && k < |d.dirs| && (d.dirs[k].found || d.dirs[k].hasFound)
  }

  /** How many subdirectories are done: those before the one the walk is in. */
  function DoneSubs(path: seq<int>, pos: int): int { if path != [] then path[0] else if pos < 0 then 0 else pos }

  /** The walk is in the directory at path, before its files if pos is negative and otherwise at its subdirectory
      pos: what it has left is final, and the directories it is in have FLAG_HAS_FOUND if anything was found in them
      so far. */
  ghost predicate Marked(n: Node, d: Dir, found: bool, path: seq<int>, pos: int)
    decreases |path|
  {
    var m := DoneSubs(path, pos);
    && |d.files| == |n.files| && |d.dirs| == |n.dirs| && d.found == found && 0 <= m <= |n.dirs|
    && (forall k {:trigger d.dirs[k]} :: 0 <= k < m ==> d.dirs[k] == Flagged(n.dirs[k], n.dirs[k].matches))
    && (forall k {:trigger d.dirs[k]} ::
         m <= k < |n.dirs| && !(path != [] && k == m) ==> SameShape(n.dirs[k], d.dirs[k]))
    && (if path == [] && pos < 0 then !d.hasFound
        else d.files == n.files
             && (d.hasFound <==>
                   AnyTrue(n.files) || AnyBelow(d, m) || (path != [] && m < |n.dirs| && n.dirs[m].matches)))
    && (path != [] ==> m < |n.dirs| && Marked(n.dirs[m], d.dirs[m], n.dirs[m].matches, path[1..], pos))
  }

  lemma {:induction false} MarkedInside(n: Node, d: Dir, found: bool, path: seq<int>, pos: int)
    requires Marked(n, d, found, path, pos)
    ensures InNode(n, path) && Within(d, path) && |Under(d, path).files| == |NodeAt(n, path).files|
      && |Under(d, path).dirs| == |NodeAt(n, path).dirs|
    ensures -1 <= pos ==> pos <= |NodeAt(n, path).dirs|
    decreases |path|
  {
    if path != [] { MarkedInside(n.dirs[path[0]], d.dirs[path[0]], n.dirs[path[0]].matches, path[1..], pos); }
  }

  /** A directory that the walk has gone through is final. */
  lemma MarkedDone(n: Node, d: Dir, found: bool)
    requires Marked(n, d, found, [], |n.dirs|)
    ensures d == Flagged(n, found)
  {
    var e := Flagged(n, found);
    assert d.dirs == e.dirs;
    assert AnyBelow(d, |n.dirs|) <==> exists k :: 0 <= k < |e.dirs| && (e.dirs[k].found || e.dirs[k].hasFound);
  }

  // ---- one change ----

  /** The files of a directory are marked. */
  function WithFiles(d: Dir, files: seq<bool>): Dir { d.(files := files, hasFound := d.hasFound || AnyTrue(files)) }

  /** Subdirectory k is entered: its flags are cleared, and if it matches it and its parent are marked. */
  function Entered(d: Dir, k: nat, matches: bool): Dir {
    if k < |d.dirs|
      then d.(dirs := d.dirs[k := d.dirs[k].(found := matches, hasFound := false)], hasFound := d.hasFound || matches)
      else d
  }

  /** Subdirectory k is left: FLAG_HAS_FOUND is passed up. */
  function Left(d: Dir, k: nat): Dir {
    if k < |d.dirs| then d.(hasFound := d.hasFound || d.dirs[k].hasFound) else d
  }

  lemma MarkedRoot(n: Node, d: Dir)
    requires SameShape(n, d)
    ensures Marked(n, d.(found := false, hasFound := false), false, [], -1)
  {
  }

  lemma {:induction false} FilesMarked(n: Node, d: Dir, found: bool, path: seq<int>, files: seq<bool>)
    requires Marked(n, d, found, path, -1) && InNode(n, path) && Within(d, path) && files == NodeAt(n, path).files
    ensures Marked(n, Update(d, path, (x: Dir) => WithFiles(x, files)), found, path, 0)
    decreases |path|
  {
    if path != [] {
      var k := path[0];
      FilesMarked(n.dirs[k], d.dirs[k], n.dirs[k].matches, path[1..], files);
      SubMarked(n, d, found, path, -1, path, 0, Update(d.dirs[k], path[1..], (x: Dir) => WithFiles(x, files)));
    } else {
      var e := WithFiles(d, files);
      assert !AnyBelow(e, 0);
    }
  }

  /** A change inside the subdirectory the walk is in. */
  lemma SubMarked(n: Node, d: Dir, found: bool, path: seq<int>, pos: int, path': seq<int>, pos': int, sub: Dir)
    requires Marked(n, d, found, path, pos) && path != [] && path' != [] && path'[0] == path[0]
    requires Marked(n.dirs[path[0]], sub, n.dirs[path[0]].matches, path'[1..], pos')
    ensures Marked(n, d.(dirs := d.dirs[path[0] := sub]), found, path', pos')
  {
    var k := path[0];
    var e := d.(dirs := d.dirs[k := sub]);
    assert AnyBelow(e, k) <==> AnyBelow(d, k) by {
      assert forall i :: 0 <= i < k ==> e.dirs[i] == d.dirs[i];
    }
    forall i {:trigger e.dirs[i]} | k < i < |n.dirs|
      ensures SameShape(n.dirs[i], e.dirs[i])
    {
      assert e.dirs[i] == d.dirs[i];
    }
    forall i {:trigger e.dirs[i]} | 0 <= i < k
      ensures e.dirs[i] == Flagged(n.dirs[i], n.dirs[i].matches)
    {
      assert e.dirs[i] == d.dirs[i];
    }
  }

  lemma {:induction false} EnterMarked(n: Node, d: Dir, found: bool, path: seq<int>, k: nat, matches: bool)
    requires Marked(n, d, found, path, k) && InNode(n, path) && Within(d, path) && k < |NodeAt(n, path).dirs|
      && matches == NodeAt(n, path).dirs[k].matches
    ensures Marked(n, Update(d, path, (x: Dir) => Entered(x, k, matches)), found, path + [k], -1)
    decreases |path|
  {
    if path != [] {
      var j := path[0];
      EnterMarked(n.dirs[j], d.dirs[j], n.dirs[j].matches, path[1..], k, matches);
      assert (path + [k])[1..] == path[1..] + [k];
      SubMarked(n, d, found, path, k, path + [k], -1, Update(d.dirs[j], path[1..], (x: Dir) => Entered(x, k, matches)));
    } else {
      EnterHere(n, d, found, k);
      assert [] + [k] == [k];
    }
  }

  lemma EnterHere(n: Node, d: Dir, found: bool, k: nat)
    requires Marked(n, d, found, [], k) && k < |n.dirs|
    ensures Marked(n, Entered(d, k, n.dirs[k].matches), found, [k], -1)
  {
    var e := Entered(d, k, n.dirs[k].matches);
    assert AnyBelow(e, k) <==> AnyBelow(d, k) by {
      assert forall i :: 0 <= i < k ==> e.dirs[i] == d.dirs[i];
    }
    forall i {:trigger e.dirs[i]} | k < i < |n.dirs|
      ensures SameShape(n.dirs[i], e.dirs[i])
    {
      assert e.dirs[i] == d.dirs[i];
    }
    forall i {:trigger e.dirs[i]} | 0 <= i < k
      ensures e.dirs[i] == Flagged(n.dirs[i], n.dirs[i].matches)
    {
      assert e.dirs[i] == d.dirs[i];
    }
    assert [k][1..] == [];
    assert SameShape(n.dirs[k], d.dirs[k]);
    var c := e.dirs[k];
    forall i {:trigger c.dirs[i]} | 0 <= i < |n.dirs[k].dirs| ensures SameShape(n.dirs[k].dirs[i], c.dirs[i]) {
      assert c.dirs[i] == d.dirs[k].dirs[i];
    }
    assert Marked(n.dirs[k], c, n.dirs[k].matches, [], -1);
  }

  lemma {:induction false} LeaveMarked(n: Node, d: Dir, found: bool, path: seq<int>, k: nat)
    requires InNode(n, path + [k]) && Marked(n, d, found, path + [k], |NodeAt(n, path + [k]).dirs|) && Within(d, path)
    ensures Marked(n, Update(d, path, (x: Dir) => Left(x, k)), found, path, k + 1)
    decreases |path|
  {
    var p := path + [k];
    var pos := |NodeAt(n, p).dirs|;
    if path != [] {
      var j := path[0];
      assert p[1..] == path[1..] + [k];
      LeaveMarked(n.dirs[j], d.dirs[j], n.dirs[j].matches, path[1..], k);
      SubMarked(n, d, found, p, pos, path, k + 1, Update(d.dirs[j], path[1..], (x: Dir) => Left(x, k)));
    } else {
      assert p == [k] && p[1..] == [] && NodeAt(n.dirs[k], []) == n.dirs[k] && pos == |n.dirs[k].dirs|;
      LeaveHere(n, d, found, k);
    }
  }

  lemma LeaveHere(n: Node, d: Dir, found: bool, k: nat)
    requires k < |n.dirs| && Marked(n, d, found, [k], |n.dirs[k].dirs|)
    ensures Marked(n, Left(d, k), found, [], k + 1)
  {
    assert [k][1..] == [];
    MarkedDone(n.dirs[k], d.dirs[k], n.dirs[k].matches);
    var e := Left(d, k);
    assert d.dirs[k].found == n.dirs[k].matches;
    assert AnyBelow(e, k + 1) <==> AnyBelow(d, k) || d.dirs[k].found || d.dirs[k].hasFound by {
      if AnyBelow(d, k) {
        var i :| 0 <= i < k && i < |d.dirs| && (d.dirs[i].found || d.dirs[i].hasFound);
        assert e.dirs[i] == d.dirs[i];
      }
      if d.dirs[k].found || d.dirs[k].hasFound { assert e.dirs[k] == d.dirs[k]; }
    }
  }

  // ---- the flags the walk will leave ----

  lemma {:induction false} AtFront(root: Dir, path: seq<int>)
    requires path != []
    ensures ValidPath(root, path) <==> 0 <= path[0] < |root.dirs| && ValidPath(root.dirs[path[0]], path[1..])
    ensures ValidPath(root, path) ==> At(root, path) == At(root.dirs[path[0]], path[1..])
    decreases |path|
  {
    if |path| > 1 {
      var q, m := path[..|path| - 1], |path| - 1;
      AtFront(root, q);
      assert q[1..] == path[1..][..m - 1] && path[1..][m - 1] == path[m];
    } else {
      assert path[..0] == [] && path[1..] == [];
    }
  }

  lemma {:induction false} AtFlagged(n: Node, found: bool, path: seq<int>)
    ensures ValidPath(Flagged(n, found), path) <==> InNode(n, path)
    ensures InNode(n, path) ==>
      At(Flagged(n, found), path) == Flagged(NodeAt(n, path), if path == [] then found else NodeAt(n, path).matches)
    decreases |path|
  {
    if path != [] {
      AtFront(Flagged(n, found), path);
      if 0 <= path[0] < |n.dirs| { AtFlagged(n.dirs[path[0]], n.dirs[path[0]].matches, path[1..]); }
    }
  }

  // ---- the order in which match finds ----

  function CountFiles(s: seq<Item>): nat {
    if s == [] then 0 else CountFiles(s[..|s| - 1]) + if s[|s| - 1].FileItem? then 1 else 0
  }

  /** What match has seen: its first item is where the cursor goes, and the files and directories are counted. */
  ghost predicate Seen(root: Dir, seen: seq<Item>, first: Place, files: nat, dirs: nat) {
    && (first == Nothing <==> seen == []) && (first != Nothing ==> OnItem(root, first) && ItemOf(first) == seen[0])
    && files == CountFiles(seen) && files + dirs == |seen|
  }

  lemma SeenMore(root: Dir, seen: seq<Item>, first: Place, files: nat, dirs: nat, c: Place)
    requires Seen(root, seen, first, files, dirs) && OnItem(root, c)
    ensures Seen(root, seen + [ItemOf(c)], if first == Nothing then c else first,
      if c.OnFile? then files + 1 else files, if c.OnFile? then dirs else dirs + 1)
  {
    assert (seen + [ItemOf(c)])[..|seen|] == seen;
  }

  /** The files of one directory, which match the query where matches says so: the flags they had are replaced. */
  method MatchFiles(matches: seq<bool>, flags0: seq<bool>, path: seq<int>, first0: Place, files0: nat, ghost root: Dir,
      ghost dirs: nat, ghost seen0: seq<Item>)
      returns (flags: seq<bool>, first: Place, files: nat, ghost seen: seq<Item>)
    requires |flags0| == |matches| && ValidPath(root, path) && At(root, path).files == matches
    requires Seen(root, seen0, first0, files0, dirs) && seen0 + NextFiles(root, path, 0) == All(root)
    ensures flags == matches && Seen(root, seen, first, files, dirs) && seen + NextSubs(root, path, 0) == All(root)
  {
    flags, first, files, seen := flags0, first0, files0, seen0;
    for i := 0 to |matches|
      invariant Seen(root, seen, first, files, dirs) && seen + NextFiles(root, path, i) == All(root)
      invariant |flags| == |matches| && flags[..i] == matches[..i]
    {
      SeeFile(root, path, i, seen, first, files, dirs);
      ghost var was := flags;
      if matches[i] {
        files := files + 1;
        flags := flags[i := true];
        if first == Nothing { first := OnFile(path, i); }
        seen := seen + [FileItem(path, i)];
      } else {
        flags := flags[i := false];
      }
      OneMoreFlag(was, flags, matches, i);
    }
    FileStep(root, path, |matches|);
    assert flags[..|matches|] == flags && matches[..|matches|] == matches;
  }

  lemma OneMoreFlag(was: seq<bool>, flags: seq<bool>, matches: seq<bool>, i: nat)
    requires i < |matches| == |was| && was[..i] == matches[..i] && flags == was[i := matches[i]]
    ensures flags[..i + 1] == matches[..i + 1]
  {
    assert flags[..i + 1] == was[..i] + [matches[i]];
  }

  lemma SeeFile(root: Dir, path: seq<int>, i: nat, seen: seq<Item>, first: Place, files: nat, dirs: nat)
    requires ValidPath(root, path) && i < |At(root, path).files| && Seen(root, seen, first, files, dirs)
      && seen + NextFiles(root, path, i) == All(root)
    ensures if At(root, path).files[i] then
              Seen(root, seen + [FileItem(path, i)], if first == Nothing then OnFile(path, i) else first, files + 1,
                dirs) &&
              seen + [FileItem(path, i)] + NextFiles(root, path, i + 1) == All(root)
            else seen + NextFiles(root, path, i + 1) == All(root)
  {
    FileStep(root, path, i);
    if At(root, path).files[i] {
      var c := OnFile(path, i);
      SeenMore(root, seen, first, files, dirs, c);
      Assoc(seen, [ItemOf(c)], NextFiles(root, path, i + 1));
    } else {
      assert [] + NextFiles(root, path, i + 1) == NextFiles(root, path, i + 1);
    }
  }

  /** A subdirectory, before it is entered. */
  method MatchDir(matches: bool, path: seq<int>, pos: nat, first0: Place, dirs0: nat, ghost root: Dir, ghost files: nat,
      ghost seen0: seq<Item>)
      returns (first: Place, dirs: nat, ghost seen: seq<Item>)
    requires ValidPath(root, path) && pos < |At(root, path).dirs| && At(root, path).dirs[pos].found == matches
    requires Seen(root, seen0, first0, files, dirs0) && seen0 + NextSubs(root, path, pos) == All(root)
    ensures ValidPath(root, path + [pos]) && Seen(root, seen, first, files, dirs)
      && seen + NextFiles(root, path + [pos], 0) == All(root)
  {
    first, dirs, seen := first0, dirs0, seen0;
    SubStep(root, path, pos);
    ChildPath(root, path, pos);
    if matches {
      var c := OnDir(path + [pos]);
      SeenMore(root, seen, first, files, dirs, c);
      Assoc(seen, [ItemOf(c)], NextFiles(root, path + [pos], 0));
      dirs := dirs + 1;
      if first == Nothing { first := c; }
      seen := seen + [ItemOf(c)];
    } else {
      assert [] + NextFiles(root, path + [pos], 0) == NextFiles(root, path + [pos], 0);
    }
  }

  /** Where the walk stands: pos is the last entry of its stack of positions, below 0 on entering the
      directory at path, and the rest of the stack is the path. */
  ghost predicate StillTo(root: Dir, path: seq<int>, pos: int, seen: seq<Item>) {
    && ValidPath(root, path) && -1 <= pos <= |At(root, path).dirs|
    && seen + (if pos < 0 then NextFiles(root, path, 0) else NextSubs(root, path, pos)) == All(root)
  }

  lemma Leaves(root: Dir, path: seq<int>, pos: int, seen: seq<Item>)
    requires StillTo(root, path, pos, seen) && pos == |At(root, path).dirs|
    ensures path == [] ==> seen == All(root)
    ensures path != [] ==> StillTo(root, path[..|path| - 1], path[|path| - 1] + 1, seen)
    ensures path != [] ==> Ahead(root, path[..|path| - 1], path[|path| - 1] + 1) < Ahead(root, path, pos)
  {
    SubEnd(root, path);
    assert seen + [] == seen;
    if path != [] { AheadUp(root, path, pos); }
  }

  lemma PathUp(path: seq<int>)
    requires path != []
    ensures path[..|path| - 1] + [path[|path| - 1]] == path
  {
  }

  lemma {:induction false} InNodeUp(n: Node, path: seq<int>)
    requires path != [] && InNode(n, path)
    ensures InNode(n, path[..|path| - 1]) && 0 <= path[|path| - 1] < |NodeAt(n, path[..|path| - 1]).dirs|
    ensures NodeAt(n, path) == NodeAt(n, path[..|path| - 1]).dirs[path[|path| - 1]]
    decreases |path|
  {
    if |path| > 1 {
      var q := path[1..];
      InNodeUp(n.dirs[path[0]], q);
      assert path[..|path| - 1][1..] == q[..|q| - 1] && path[..|path| - 1][0] == path[0];
    }
  }

  /** match: whatever flags were set before, those of what matches are set after, the cursor is on the first found
      item in pre-order and the files and directories found are counted. */
  method Match(n: Node, flags: Dir) returns (d: Dir, first: Place, files: nat, dirs: nat)
    requires SameShape(n, flags)
    ensures d == Flagged(n, false) && Seen(d, All(d), first, files, dirs)
    ensures first != Nothing ==> Earlier(d, first) == []
  {
    first, files, dirs := Nothing, 0, 0;
    d := flags.(found := false, hasFound := false);
    ghost var root := Flagged(n, false);
    ghost var seen: seq<Item> := [];
    var path: seq<int>, pos := [], -1;
    HeadWhole(root, []);
    MarkedRoot(n, flags);
    while true
      invariant StillTo(root, path, pos, seen) && Seen(root, seen, first, files, dirs) && Marked(n, d, false, path, pos)
      decreases Ahead(root, path, if pos < 0 then 0 else pos)
    {
      if pos < 0 {
        d, first, files, seen := MarkFiles(n, d, path, first, files, root, dirs, seen);
        pos := 0;
      }
      AtFlagged(n, false, path);
      if pos < |NodeAt(n, path).dirs| {
        AheadDown(root, path, pos, pos);
        d, first, dirs, seen := EnterDir(n, d, path, pos, first, dirs, root, files, seen);
        path, pos := path + [pos], -1;
      } else {
        Leaves(root, path, pos, seen);
        if path == [] { break; }
        d := LeaveDir(n, d, path);
        path, pos := path[..|path| - 1], path[|path| - 1] + 1;
      }
    }
    MarkedDone(n, d, false);
    if first != Nothing { FirstEarlier(root, first); }
  }

  /** Into subdirectory pos. */
  method EnterDir(n: Node, d0: Dir, path: seq<int>, pos: nat, first0: Place, dirs0: nat, ghost root: Dir,
      ghost files: nat, ghost seen0: seq<Item>)
      returns (d: Dir, first: Place, dirs: nat, ghost seen: seq<Item>)
    requires root == Flagged(n, false) && StillTo(root, path, pos, seen0) && Seen(root, seen0, first0, files, dirs0)
      && Marked(n, d0, false, path, pos)
    requires InNode(n, path) && pos < |NodeAt(n, path).dirs|
    ensures StillTo(root, path + [pos], -1, seen) && Seen(root, seen, first, files, dirs)
      && Marked(n, d, false, path + [pos], -1)
  {
    AtFlagged(n, false, path);
    MarkedInside(n, d0, false, path, pos);
    var matches := NodeAt(n, path).dirs[pos].matches;
    first, dirs, seen := MatchDir(matches, path, pos, first0, dirs0, root, files, seen0);
    EnterMarked(n, d0, false, path, pos, matches);
    d := Update(d0, path, (x: Dir) => Entered(x, pos, matches));
  }

  /** Back to the parent. */
  method LeaveDir(n: Node, d0: Dir, path: seq<int>) returns (d: Dir)
    requires path != [] && InNode(n, path) && Marked(n, d0, false, path, |NodeAt(n, path).dirs|)
    ensures Marked(n, d, false, path[..|path| - 1], path[|path| - 1] + 1)
  {
    PathUp(path);
    InNodeUp(n, path);
    var up, k := path[..|path| - 1], path[|path| - 1];
    LeaveUp(n, d0, up, k);
    d := Update(d0, up, (x: Dir) => Left(x, k));
  }

  lemma LeaveUp(n: Node, d: Dir, path: seq<int>, k: nat)
    requires InNode(n, path + [k]) && Marked(n, d, false, path + [k], |NodeAt(n, path + [k]).dirs|)
    ensures Within(d, path) && Marked(n, Update(d, path, (x: Dir) => Left(x, k)), false, path, k + 1)
  {
    MarkedInside(n, d, false, path + [k], |NodeAt(n, path + [k]).dirs|);
    WithinUp(d, path, k);
    LeaveMarked(n, d, false, path, k);
  }

  lemma {:induction false} WithinUp(d: Dir, path: seq<int>, k: int)
    requires Within(d, path + [k])
    ensures Within(d, path)
    decreases |path|
  {
    if path != [] {
      assert (path + [k])[1..] == path[1..] + [k];
      WithinUp(d.dirs[path[0]], path[1..], k);
    }
  }

  /** The files of the directory at path, on entering it. */
  method MarkFiles(n: Node, d0: Dir, path: seq<int>, first0: Place, files0: nat, ghost root: Dir, ghost dirs: nat,
      ghost seen0: seq<Item>)
      returns (d: Dir, first: Place, files: nat, ghost seen: seq<Item>)
    requires root == Flagged(n, false) && StillTo(root, path, -1, seen0) && Seen(root, seen0, first0, files0, dirs)
      && Marked(n, d0, false, path, -1)
    ensures StillTo(root, path, 0, seen) && Seen(root, seen, first, files, dirs) && Marked(n, d, false, path, 0)
  {
    AtFlagged(n, false, path);
    MarkedInside(n, d0, false, path, -1);
    var flags;
    flags, first, files, seen := MatchFiles(NodeAt(n, path).files, Under(d0, path).files, path, first0, files0, root,
      dirs, seen0);
    FilesMarked(n, d0, false, path, flags);
    d := Update(d0, path, (x: Dir) => WithFiles(x, flags));
  }

  /** A search, and the items that repeated next then visits: all that match, in pre-order, or only the first when a
      file of the root matches. */
  method SearchAndVisit(n: Node, flags: Dir) returns (items: seq<Item>)
    requires SameShape(n, flags)
    ensures AnyTrue(n.files) ==> All(Flagged(n, false)) != []
    ensures items == if AnyTrue(n.files) then All(Flagged(n, false))[..1] else All(Flagged(n, false))
  {
    var d, first, files, dirs := Match(n, flags);
    FlaggedConsistent(n, false);
    items := Visit(d, first);
    NoFiles(n.files, [], 0, |n.files|);
  }

  // ---- markAsFound ----

  /** File i of the directory at path is marked, and FLAG_HAS_FOUND set on the directories of depth j and more. */
  function MarkedFrom(d: Dir, path: seq<int>, i: nat, j: int): Dir
    requires Within(d, path) && i < |Under(d, path).files|
    decreases |path|
  {
    var e := d.(hasFound := d.hasFound || j <= 0);
    if path == [] then e.(files := d.files[i := true])
    else e.(dirs := d.dirs[path[0] := MarkedFrom(d.dirs[path[0]], path[1..], i, j - 1)])
  }

  /** Setting the flag on all of them keeps the flags consistent. */
  lemma {:induction false} MarkedConsistent(d: Dir, path: seq<int>, i: nat)
    requires Consistent(d) && Within(d, path) && i < |Under(d, path).files|
    ensures Consistent(MarkedFrom(d, path, i, 0)) && MarkedFrom(d, path, i, 0).hasFound
    decreases |path|
  {
    var e := MarkedFrom(d, path, i, 0);
    if path != [] {
      var k := path[0];
      AboveAll(d.dirs[k], path[1..], i, -1);
      MarkedConsistent(d.dirs[k], path[1..], i);
      assert e.dirs[k].hasFound;
      forall x {:trigger e.dirs[x]} | 0 <= x < |e.dirs|
        ensures Consistent(e.dirs[x])
      {
        if x != k {
          assert e.dirs[x] == d.dirs[x];
        }
      }
    } else {
      assert e.files[i];
      forall x {:trigger e.dirs[x]} | 0 <= x < |e.dirs| ensures Consistent(e.dirs[x]) { assert e.dirs[x] == d.dirs[x]; }
    }
  }

  lemma {:induction false} AboveAll(d: Dir, path: seq<int>, i: nat, j: int)
    requires Within(d, path) && i < |Under(d, path).files| && j <= 0
    ensures MarkedFrom(d, path, i, j) == MarkedFrom(d, path, i, 0)
    decreases |path|
  {
    if path != [] {
      AboveAll(d.dirs[path[0]], path[1..], i, j - 1);
      AboveAll(d.dirs[path[0]], path[1..], i, -1);
    }
  }

  /** Where the flag is set already it is set on every directory above. */
  lemma {:induction false} SetAbove(d: Dir, path: seq<int>, i: nat, j: int)
    requires Consistent(d) && Within(d, path) && i < |Under(d, path).files| && 0 < j <= |path| + 1
    requires Within(d, path[..j - 1]) && Under(d, path[..j - 1]).hasFound
    ensures d.hasFound && MarkedFrom(d, path, i, j) == MarkedFrom(d, path, i, 0)
    decreases |path|
  {
    if j == 1 {
      assert path[..0] == [];
      if path != [] {
        AboveAll(d.dirs[path[0]], path[1..], i, -1);
      }
    } else {
      var k := path[0];
      assert path[..j - 1][1..] == path[1..][..j - 2];
      SetAbove(d.dirs[k], path[1..], i, j - 1);
      AboveAll(d.dirs[k], path[1..], i, -1);
      assert Consistent(d.dirs[k]) && AnySub(d);
    }
  }

  /** Setting one flag more. */
  lemma {:induction false} MarkedMore(d: Dir, path: seq<int>, i: nat, j: nat)
    requires Within(d, path) && i < |Under(d, path).files| && j <= |path|
    ensures Within(MarkedFrom(d, path, i, j + 1), path[..j]) && Within(d, path[..j])
    ensures Under(MarkedFrom(d, path, i, j + 1), path[..j]).hasFound == Under(d, path[..j]).hasFound
    ensures Update(MarkedFrom(d, path, i, j + 1), path[..j], (x: Dir) => x.(hasFound := true)) ==
      MarkedFrom(d, path, i, j)
    decreases |path|
  {
    if j > 0 {
      var k := path[0];
      assert path[..j][1..] == path[1..][..j - 1] && path[..j][0] == k;
      MarkedMore(d.dirs[k], path[1..], i, j - 1);
      var a, b := MarkedFrom(d, path, i, j + 1), MarkedFrom(d, path, i, j);
      var c := Update(a.dirs[k], path[1..][..j - 1], (x: Dir) => x.(hasFound := true));
      assert a.dirs[k := c] == b.dirs;
    } else {
      assert path[..0] == [];
      if path != [] { AboveAll(d.dirs[path[0]], path[1..], i, -1); }
    }
  }

  /** markAsFound: stops at the first directory that has the flag, and yet every directory above the file has it. */
  method MarkAsFound(d0: Dir, path: seq<int>, i: nat) returns (d: Dir)
    requires Consistent(d0) && Within(d0, path) && i < |Under(d0, path).files|
    ensures d == MarkedFrom(d0, path, i, 0) && Consistent(d)
  {
    var j := |path| + 1;
    d := Update(d0, path, (x: Dir) => if i < |x.files| then x.(files := x.files[i := true]) else x);
    FileOnly(d0, path, i);
    MarkedConsistent(d0, path, i);
    while j > 0
      invariant 0 <= j <= |path| + 1 && d == MarkedFrom(d0, path, i, j)
    {
      MarkedMore(d0, path, i, j - 1);
      if Under(d, path[..j - 1]).hasFound { SetAbove(d0, path, i, j); return; }
      d := Update(d, path[..j - 1], (x: Dir) => x.(hasFound := true));
      j := j - 1;
    }
  }

  lemma {:induction false} FileOnly(d: Dir, path: seq<int>, i: nat)
    requires Within(d, path) && i < |Under(d, path).files|
    ensures Update(d, path, (x: Dir) => if i < |x.files| then x.(files := x.files[i := true]) else x) ==
      MarkedFrom(d, path, i, |path| + 1)
    decreases |path|
  {
    if path != [] { FileOnly(d.dirs[path[0]], path[1..], i); }
  }
}
