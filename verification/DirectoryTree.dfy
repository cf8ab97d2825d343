/** A file list with search flags, and the list of its found items in pre-order. */
module DirectoryTree {
  import opened Sequences

  /** A directory: which of its files are found, its subdirectories, FLAG_FOUND and FLAG_HAS_FOUND. */
  datatype Dir = Dir(files: seq<bool>, dirs: seq<Dir>, found: bool, hasFound: bool)

  /** A found file or directory, by the indices that lead to it. */
  datatype Item = FileItem(path: seq<int>, index: int) | DirItem(path: seq<int>)

  // ---- the list of found items ----

  function FileItems(files: seq<bool>, path: seq<int>, lo: int, hi: int): seq<Item>
    requires 0 <= lo && hi <= |files|
    decreases hi - lo
  {
    if lo >= hi then [] else FileItems(files, path, lo, hi - 1) + if files[hi - 1] then [FileItem(path, hi - 1)] else []
  }

  function Own(d: Dir, path: seq<int>): seq<Item> {
    if d.found then [DirItem(path)] else []
  }

  /** The subdirectories lo..hi-1, each before what is in it. */
  function SubItems(d: Dir, path: seq<int>, lo: int, hi: int): seq<Item>
    requires 0 <= lo && hi <= |d.dirs|
    decreases d, if hi < lo then 0 else hi - lo
  {
    if lo >= hi then []
    else
      var child := d.dirs[hi - 1];
      SubItems(d, path, lo, hi - 1) + (Own(child, path + [hi - 1]) + Contents(child, path + [hi - 1]))
  }

  /** What is found in a directory: its files, then its subdirectories. */
  function Contents(d: Dir, path: seq<int>): seq<Item>
    decreases d, |d.dirs| + 1
  {
    FileItems(d.files, path, 0, |d.files|) + SubItems(d, path, 0, |d.dirs|)
  }

  lemma {:induction false} FileSplit(files: seq<bool>, path: seq<int>, lo: int, mid: int, hi: int)
    requires 0 <= lo <= mid <= hi <= |files|
    ensures FileItems(files, path, lo, hi) == FileItems(files, path, lo, mid) + FileItems(files, path, mid, hi)
    decreases hi - mid
  {
    if mid < hi { FileSplit(files, path, lo, mid, hi - 1); }
  }

  lemma {:induction false} SubSplit(d: Dir, path: seq<int>, lo: int, mid: int, hi: int)
    requires 0 <= lo <= mid <= hi <= |d.dirs|
    ensures SubItems(d, path, lo, hi) == SubItems(d, path, lo, mid) + SubItems(d, path, mid, hi)
    decreases hi - mid
  {
    if mid < hi {
      SubSplit(d, path, lo, mid, hi - 1);
      var last := Own(d.dirs[hi - 1], path + [hi - 1]) + Contents(d.dirs[hi - 1], path + [hi - 1]);
      Assoc(SubItems(d, path, lo, mid), SubItems(d, path, mid, hi - 1), last);
    }
  }

  // ---- the flags ----

  ghost predicate AnyFile(d: Dir) { exists i :: 0 <= i < |d.files| && d.files[i] }

  ghost predicate AnySub(d: Dir) { exists k :: 0 <= k < |d.dirs| && (d.dirs[k].found || d.dirs[k].hasFound) }

  /** FLAG_HAS_FOUND means a found file, or a subdirectory that is found or has something found in it. */
  ghost predicate Consistent(d: Dir)
    decreases d
  {
    && (d.hasFound <==> AnyFile(d) || AnySub(d))
    && forall k {:trigger d.dirs[k]} :: 0 <= k < |d.dirs| ==> Consistent(d.dirs[k])
  }

  lemma {:induction false} NoFiles(files: seq<bool>, path: seq<int>, lo: int, hi: int)
    requires 0 <= lo && hi <= |files|
    ensures (FileItems(files, path, lo, hi) == []) <==> forall i :: lo <= i < hi ==> !files[i]
    decreases hi - lo
  {
    if lo < hi { NoFiles(files, path, lo, hi - 1); }
  }

  lemma {:induction false} NoSubs(d: Dir, path: seq<int>, hi: int)
    requires Consistent(d) && 0 <= hi <= |d.dirs|
    ensures (SubItems(d, path, 0, hi) == []) <==> forall k :: 0 <= k < hi ==> !d.dirs[k].found && !d.dirs[k].hasFound
    decreases d, hi
  {
    if hi > 0 {
      NoSubs(d, path, hi - 1);
      HasFoundMeans(d.dirs[hi - 1], path + [hi - 1]);
    }
  }

  /** FLAG_HAS_FOUND is set exactly when the directory or a descendant directly holds a match. */
  lemma {:induction false} HasFoundMeans(d: Dir, path: seq<int>)
    requires Consistent(d)
    ensures d.hasFound <==> Contents(d, path) != []
    decreases d, |d.dirs| + 1
  {
    NoFiles(d.files, path, 0, |d.files|);
    NoSubs(d, path, |d.dirs|);
    assert !AnyFile(d) <==> forall i :: 0 <= i < |d.files| ==> !d.files[i];
    assert !AnySub(d) <==> forall k :: 0 <= k < |d.dirs| ==> !d.dirs[k].found && !d.dirs[k].hasFound;
  }

  // ---- match and clearMatches ----

  /** A directory as the query sees it: which of its files match, its subdirectories, whether it matches itself. */
  datatype Node = Node(files: seq<bool>, dirs: seq<Node>, matches: bool)

  /** The flags that say what matches. */
  function Flagged(n: Node, found: bool): (d: Dir)
    decreases n
  {
    var dirs := seq(|n.dirs|, k requires 0 <= k < |n.dirs| => Flagged(n.dirs[k], n.dirs[k].matches));
    Dir(n.files, dirs, found,
      (exists i :: 0 <= i < |n.files| && n.files[i])
      || exists k :: 0 <= k < |dirs| && (dirs[k].found || dirs[k].hasFound))
  }

  lemma {:induction false} FlaggedConsistent(n: Node, found: bool)
    ensures Consistent(Flagged(n, found)) && Flagged(n, found).found == found && Flagged(n, found).files == n.files
    decreases n
  {
    var d := Flagged(n, found);
    forall k {:trigger d.dirs[k]} | 0 <= k < |d.dirs|
      ensures Consistent(d.dirs[k])
    {
      FlaggedConsistent(n.dirs[k], n.dirs[k].matches);
    }
  }

  /** Directory::clearMatches, which does not go where nothing is found. */
  function Cleared(d: Dir): Dir
    decreases d
  {
    if d.hasFound then
      Dir(seq(|d.files|, _ => false), seq(|d.dirs|, k requires 0 <= k < |d.dirs| => Cleared(d.dirs[k])), false, false)
    else d.(found := false, hasFound := false)
  }

  /** No flag is set anywhere. */
  ghost predicate Bare(d: Dir)
    decreases d
  {
    && !d.found && !d.hasFound && (forall i {:trigger d.files[i]} :: 0 <= i < |d.files| ==> !d.files[i])
    && forall k {:trigger d.dirs[k]} :: 0 <= k < |d.dirs| ==> Bare(d.dirs[k])
  }

  /** With consistent flags the pruned walk clears every flag. */
  lemma {:induction false} ClearedBare(d: Dir)
    requires Consistent(d)
    ensures Bare(Cleared(d))
    decreases d
  {
    if d.hasFound {
      var c := Cleared(d);
      forall k {:trigger c.dirs[k]} | 0 <= k < |c.dirs| ensures Bare(c.dirs[k]) { ClearedBare(d.dirs[k]); }
    } else {
      assert !AnyFile(d) && !AnySub(d);
      forall k {:trigger d.dirs[k]} | 0 <= k < |d.dirs| ensures Bare(d.dirs[k]) {
        assert !d.dirs[k].found && !d.dirs[k].hasFound;
        ClearedBare(d.dirs[k]);
        assert Cleared(d.dirs[k]) == d.dirs[k];
      }
    }
  }
}
