/** The directory tree below the data directory: creating the path of a file, removing a file and
    pruning the directories this leaves empty (`make_mseed_filepath`). A directory is the sequence of
    its levels - year, month, day, hour, minute - and the data directory itself is the empty sequence. */
module DateTree {

  type Dir = seq<int>

  const LEVELS: nat := 5

  /** A file: the minute directory it is in and the millisecond its name tells. */
  datatype Path = Path(dir: Dir, ms: int)

  predicate Child(c: Dir, d: Dir) {
    |c| == |d| + 1 && c[..|d|] == d
  }

  function Above(d: Dir): Dir
    requires d != []
  {
    d[..|d| - 1]
  }

  predicate Occupied(tree: set<Dir>, files: set<Path>, d: Dir) {
    (exists c <- tree :: Child(c, d)) || (exists p <- files :: p.dir == d)
  }

  /** `rmdir` succeeds on a directory that exists and is empty. */
  predicate Removable(tree: set<Dir>, files: set<Path>, d: Dir) {
    d in tree && !Occupied(tree, files, d)
  }

  /** Removes directories from `d` upward until one cannot be removed; never the data directory. */
  function Prune(tree: set<Dir>, files: set<Path>, d: Dir): set<Dir> {
    if d != [] && Removable(tree, files, d) then Prune(tree - {d}, files, Above(d)) else tree
  }

  /** The directories on the way down to `d`. */
  function Branch(d: Dir): set<Dir> {
    if d == [] then {} else Branch(Above(d)) + {d}
  }

  /** Makes the directories down to `d`, unless `d` is there already. */
  function Create(tree: set<Dir>, d: Dir): set<Dir> {
    if d in tree then tree else tree + Branch(d)
  }

  // ---------- The code ----------

  /** Five calls of `mkdir`, which leaves an existing directory alone. */
  method MakeDirs(tree: set<Dir>, d: Dir) returns (r: set<Dir>)
    requires |d| == LEVELS
    ensures r == Create(tree, d)
  {
    r := tree;
    if d !in tree {
      var len := 0;
      while len < LEVELS
        invariant 0 <= len <= LEVELS
        invariant r == tree + Branch(d[..len])
      {
        len := len + 1;
        assert Above(d[..len]) == d[..len - 1];
        r := r + {d[..len]};
      }
      assert d[..len] == d;
    }
  }

  /** At most five calls of `rmdir`, up to the first that fails. */
  method RemoveDirs(tree: set<Dir>, files: set<Path>, d: Dir) returns (r: set<Dir>)
    requires |d| == LEVELS
    ensures r == Prune(tree, files, d)
  {
    r := tree;
    var icount := 0;
    assert d[..LEVELS] == d;
    while icount < LEVELS
      invariant 0 <= icount <= LEVELS
      invariant Prune(tree, files, d) == Prune(r, files, d[..LEVELS - icount])
    {
      var pathfrag := d[..LEVELS - icount];
      if !Removable(r, files, pathfrag) {
        break;
      }
      assert Above(pathfrag) == d[..LEVELS - icount - 1];
      r := r - {pathfrag};
      icount := icount + 1;
    }
  }

  // ---------- What creating and pruning keep ----------

  /** The directory has a place in the tree: a level, and the directory above it. */
  ghost predicate Rooted(tree: set<Dir>, d: Dir) {
    1 <= |d| <= LEVELS && (|d| > 1 ==> Above(d) in tree)
  }

  ghost predicate HasChild(tree: set<Dir>, d: Dir) {
    exists c <- tree :: Child(c, d)
  }

  /** No year, month, day or hour directory is empty - apart perhaps from one. */
  ghost predicate SoundBut(tree: set<Dir>, but: Dir) {
    && (forall d <- tree :: Rooted(tree, d))
    && (forall d <- tree :: |d| < LEVELS && d != but ==> HasChild(tree, d))
  }

  /** No year, month, day or hour directory is empty, and every directory hangs in the tree. */
  ghost predicate Sound(tree: set<Dir>) {
    && (forall d <- tree :: Rooted(tree, d))
    && (forall d <- tree :: |d| < LEVELS ==> HasChild(tree, d))
  }

  lemma StaysRooted(tree: set<Dir>, d: Dir, e: Dir)
    requires Rooted(tree, e) && e in tree && !HasChild(tree, d)
    ensures Rooted(tree - {d}, e)
  {
  }

  lemma KeepsChild(tree: set<Dir>, d: Dir, e: Dir)
    requires HasChild(tree, e) && d != [] && e != Above(d)
    ensures HasChild(tree - {d}, e)
  {
  }

  /** Taking away a directory without subdirectories can leave only the one above it empty. */
  lemma RemoveLeaf(tree: set<Dir>, d: Dir)
    requires SoundBut(tree, d) && d in tree && !HasChild(tree, d)
    ensures d != [] && SoundBut(tree - {d}, Above(d))
    ensures Above(d) != [] ==> Above(d) in tree - {d}
  {
    assert Rooted(tree, d);
    forall e | e in tree - {d}
      ensures Rooted(tree - {d}, e)
      ensures |e| < LEVELS && e != Above(d) ==> HasChild(tree - {d}, e)
    {
      StaysRooted(tree, d, e);
      if |e| < LEVELS && e != Above(d) {
        KeepsChild(tree, d, e);
      }
    }
  }

  lemma {:induction false} PruneUpKeeps(tree: set<Dir>, files: set<Path>, d: Dir)
    requires SoundBut(tree, d) && |d| < LEVELS && (d != [] ==> d in tree)
    requires forall p <- files :: |p.dir| == LEVELS
    ensures var r := Prune(tree, files, d);
            && Sound(r) && r <= tree
            && (forall e <- tree :: |e| == LEVELS ==> e in r)
    decreases |d|
  {
    if d == [] {
    } else if HasChild(tree, d) {
      assert Occupied(tree, files, d);
    } else {
      hide SoundBut;
      RemoveLeaf(tree, d);
      PruneUpKeeps(tree - {d}, files, Above(d));
    }
  }

  lemma MinuteIsLeaf(tree: set<Dir>, files: set<Path>, d: Dir)
    requires Sound(tree) && |d| == LEVELS
    ensures !HasChild(tree, d)
    ensures Occupied(tree, files, d) <==> HoldsFile(files, d)
  {
  }

  predicate HoldsFile(files: set<Path>, d: Dir) {
    exists p <- files :: p.dir == d
  }

  /** Pruning from a minute directory removes it if it holds no file, keeps every other minute directory,
      and leaves no directory above empty. */
  lemma PruneKeeps(tree: set<Dir>, files: set<Path>, d: Dir)
    requires Sound(tree) && |d| == LEVELS
    requires forall p <- files :: |p.dir| == LEVELS && p.dir in tree
    ensures var r := Prune(tree, files, d);
            && Sound(r) && r <= tree
            && (forall e <- tree :: |e| == LEVELS && e != d ==> e in r)
            && (d in r <==> HoldsFile(files, d))
  {
    hide Prune;
    hide Sound;
    hide HoldsFile;
    hide Removable;
    MinuteInUse(tree, files, d);
    PruneOnce(tree, files, d);
    if Removable(tree, files, d) {
      LeafRemoved(tree, files, d);
      PruneUpKeeps(tree - {d}, files, Above(d));
    }
  }

  lemma PruneOnce(tree: set<Dir>, files: set<Path>, d: Dir)
    requires d != []
    ensures Prune(tree, files, d) == if Removable(tree, files, d) then Prune(tree - {d}, files, Above(d)) else tree
  {
  }

  lemma MinuteInUse(tree: set<Dir>, files: set<Path>, d: Dir)
    requires Sound(tree) && |d| == LEVELS
    requires forall p <- files :: |p.dir| == LEVELS && p.dir in tree
    ensures Removable(tree, files, d) <==> d in tree && !HoldsFile(files, d)
    ensures HoldsFile(files, d) ==> d in tree
  {
    MinuteIsLeaf(tree, files, d);
  }

  lemma LeafRemoved(tree: set<Dir>, files: set<Path>, d: Dir)
    requires Sound(tree) && |d| == LEVELS && Removable(tree, files, d)
    ensures SoundBut(tree - {d}, Above(d)) && (Above(d) != [] ==> Above(d) in tree - {d})
  {
    MinuteIsLeaf(tree, files, d);
    assert SoundBut(tree, d);
    RemoveLeaf(tree, d);
  }

  lemma {:induction false} BranchSound(tree: set<Dir>, d: Dir)
    requires Sound(tree) && |d| <= LEVELS
    ensures SoundBut(tree + Branch(d), d)
    ensures d != [] ==> d in tree + Branch(d)
    ensures forall e <- Branch(d) :: |e| <= |d| && (|e| == |d| ==> e == d)
    decreases |d|
  {
    if d != [] {
      var up := Above(d);
      BranchSound(tree, up);
      var lower := tree + Branch(up);
      var all := tree + Branch(d);
      assert all == lower + {d};
      assert Child(d, up);
      forall e | e in all
        ensures Rooted(all, e)
        ensures |e| < LEVELS && e != d ==> HasChild(all, e)
      {
        if e != d {
          assert Rooted(lower, e);
          if |e| < LEVELS && e != up {
            assert HasChild(lower, e);
          }
        }
      }
    }
  }

  /** Creating the path of a minute directory adds that minute directory alone, and leaves no directory empty. */
  lemma CreateKeeps(tree: set<Dir>, d: Dir)
    requires Sound(tree) && |d| == LEVELS
    ensures var r := Create(tree, d);
            && Sound(r) && tree <= r && d in r
            && (forall e <- r :: |e| == LEVELS ==> e in tree || e == d)
  {
    BranchSound(tree, d);
    var r := Create(tree, d);
    if d !in tree {
      assert SoundBut(r, d);
      forall e | e in r && |e| < LEVELS
        ensures HasChild(r, e)
      {
        assert e != d;
      }
    }
  }
}
