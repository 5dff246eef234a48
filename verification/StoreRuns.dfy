/** What holds on every run of the store, whatever the interleaving of samples, records, device errors,
    termination signals and restarts. */
module StoreRuns {
  import opened Options
  import opened Seqs
  import opened DateTree
  import opened FileNames
  import opened NumberTheory
  import opened StateDump
  import opened Store

  /** The state a run of events leads to, if each event can happen when it comes. */
  ghost function Run(c: Config, s: State, events: seq<Event>): Option<State>
    decreases |events|
  {
    if events == [] then Some(s)
    else if s.index < |s.list| == c.ring && Enabled(c, s, events[0]) then Run(c, Next(c, s, events[0]), events[1..])
    else None
  }

  ghost predicate Reachable(c: Config, s: State) {
    exists events :: Run(c, Initial(c), events) == Some(s)
  }

  /** No record starts at or before the epoch. */
  ghost predicate Late(events: seq<Event>) {
    forall e <- events :: e.RecordDone? ==> e.t > 0
  }

  ghost predicate LateReachable(c: Config, s: State) {
    exists events :: Run(c, Initial(c), events) == Some(s) && Late(events)
  }

  lemma {:induction false} RunAppend(c: Config, s: State, a: seq<Event>, b: seq<Event>)
    ensures Run(c, s, a + b) == match Run(c, s, a) case None => None case Some(t) => Run(c, t, b)
    decreases |a|
  {
    hide Enabled;
    hide Next;
    if a == [] {
      assert a + b == b;
    } else {
      assert (a + b)[0] == a[0] && (a + b)[1..] == a[1..] + b;
      if s.index < |s.list| == c.ring && Enabled(c, s, a[0]) {
        RunAppend(c, Next(c, s, a[0]), a[1..], b);
      }
    }
  }

  lemma {:induction false} RunKeeps(late: bool, c: Config, s: State, events: seq<Event>)
    requires Inv(late, c, s) && (late ==> Late(events))
    ensures Run(c, s, events).Some? ==> Inv(late, c, Run(c, s, events).value)
    decreases |events|
  {
    hide Inv;
    hide Enabled;
    hide Next;
    if events != [] && s.index < |s.list| == c.ring && Enabled(c, s, events[0]) {
      assert events[0] in events;
      StepKeeps(late, c, s, events[0]);
      RunKeeps(late, c, Next(c, s, events[0]), events[1..]);
    }
  }

  lemma ReachableInv(c: Config, s: State)
    requires Good(c) && Reachable(c, s)
    ensures Inv(false, c, s)
  {
    hide Inv;
    var events :| Run(c, Initial(c), events) == Some(s);
    InitialInv(false, c);
    RunKeeps(false, c, Initial(c), events);
  }

  lemma LateReachableInv(c: Config, s: State)
    requires Good(c) && LateReachable(c, s)
    ensures Inv(true, c, s)
  {
    hide Inv;
    var events :| Run(c, Initial(c), events) == Some(s) && Late(events);
    InitialInv(true, c);
    RunKeeps(true, c, Initial(c), events);
  }

  lemma {:induction false} PathsOfRing(list: seq<int>)
    ensures |set i | 0 <= i < |list| :: PathOf(list[i])| <= |list|
  {
    hide PathOf;
    if list != [] {
      var n := |list| - 1;
      PathsOfRing(list[..n]);
      var front := set i | 0 <= i < n :: PathOf(list[..n][i]);
      assert (set i | 0 <= i < |list| :: PathOf(list[i])) <= front + {PathOf(list[n])} by {
        forall i | 0 <= i < |list|
          ensures PathOf(list[i]) in front + {PathOf(list[n])}
        {
          assert i < n ==> list[..n][i] == list[i];
        }
      }
      SubsetSize(set i | 0 <= i < |list| :: PathOf(list[i]), front + {PathOf(list[n])});
    }
  }

  lemma {:induction false} SubsetSize<T>(a: set<T>, b: set<T>)
    requires a <= b
    ensures |a| <= |b|
    decreases b
  {
    if a != {} {
      var x :| x in a;
      SubsetSize(a - {x}, b - {x});
    }
  }

  /** On every run without a start at or before the epoch, each permanent file is named by a slot of the ring, so
      there are never more of them than slots, and each minute directory is that of a slot's time. */
  lemma StoreSafety(c: Config, s: State)
    requires Good(c) && LateReachable(c, s)
    ensures |s.list| == c.ring
    ensures forall p <- s.files.Keys :: exists i :: 0 <= i < |s.list| && s.list[i] > 0 && PathOf(s.list[i]) == p
    ensures |s.files| <= c.ring
    ensures forall d <- s.tree :: |d| == LEVELS ==>
              exists i :: 0 <= i < |s.list| && s.list[i] > 0 && DateDir(s.list[i]) == d
  {
    hide LateReachable;
    hide PathOf;
    hide DateDir;
    hide SamplesOk;
    hide Sound;
    hide Known;
    hide KnownDir;
    LateReachableInv(c, s);
    assert forall p <- s.files.Keys :: Known(true, s.list, Skip(s), p);
    assert forall d <- s.tree :: |d| == LEVELS ==> KnownDir(true, s.list, Skip(s), d);
    NamedMeans(s.list, Skip(s), s.files.Keys, s.tree);
    NamedCount(s.list, s.files.Keys);
    assert |s.files| == |s.files.Keys|;
  }

  lemma NamedMeans(list: seq<int>, skip: int, files: set<Path>, tree: set<Dir>)
    requires forall p <- files :: Known(true, list, skip, p)
    requires forall d <- tree :: |d| == LEVELS ==> KnownDir(true, list, skip, d)
    ensures forall p <- files :: exists i :: 0 <= i < |list| && list[i] > 0 && PathOf(list[i]) == p
    ensures forall d <- tree :: |d| == LEVELS ==> exists i :: 0 <= i < |list| && list[i] > 0 && DateDir(list[i]) == d
  {
    hide PathOf;
    hide DateDir;
    forall p | p in files
      ensures exists i :: 0 <= i < |list| && list[i] > 0 && PathOf(list[i]) == p
    {
      assert Known(true, list, skip, p);
    }
    forall d | d in tree && |d| == LEVELS
      ensures exists i :: 0 <= i < |list| && list[i] > 0 && DateDir(list[i]) == d
    {
      assert KnownDir(true, list, skip, d);
    }
  }

  /** On every run, whatever the start times, a file that no slot names is that of a time at or before the epoch,
      and the file being written keeps its slot until it is renamed or abandoned. */
  lemma UnnamedAreEarly(c: Config, s: State)
    requires Good(c) && Reachable(c, s)
    ensures forall p <- s.files.Keys ::
              || (exists i :: 0 <= i < |s.list| && s.list[i] > 0 && PathOf(s.list[i]) == p)
              || (exists t :: t <= 0 && PathOf(t) == p)
    ensures InFile(s) ==> s.slot < |s.list| && s.list[s.slot] == s.target
  {
    hide Reachable;
    hide PathOf;
    hide DateDir;
    hide SamplesOk;
    hide Sound;
    hide Known;
    hide KnownDir;
    ReachableInv(c, s);
    assert forall p <- s.files.Keys :: Known(false, s.list, Skip(s), p);
    forall p | p in s.files.Keys
      ensures (exists i :: 0 <= i < |s.list| && s.list[i] > 0 && PathOf(s.list[i]) == p)
              || (exists t :: t <= 0 && PathOf(t) == p)
    {
      KnownMeans(s.list, Skip(s), p);
    }
  }

  lemma KnownMeans(list: seq<int>, skip: int, p: Path)
    requires Known(false, list, skip, p)
    ensures (exists i :: 0 <= i < |list| && list[i] > 0 && PathOf(list[i]) == p)
            || (exists t :: t <= 0 && PathOf(t) == p)
  {
    hide PathOf;
  }

  lemma NamedCount(list: seq<int>, files: set<Path>)
    requires forall p <- files :: exists i :: 0 <= i < |list| && list[i] > 0 && PathOf(list[i]) == p
    ensures |files| <= |list|
  {
    hide PathOf;
    var named := set i | 0 <= i < |list| :: PathOf(list[i]);
    assert files <= named;
    PathsOfRing(list);
    SubsetSize(files, named);
  }

  lemma TreeFacts(tree: set<Dir>, d: Dir)
    requires Sound(tree) && d in tree
    ensures 1 <= |d| <= LEVELS && (|d| > 1 ==> d[..|d| - 1] in tree)
    ensures |d| < LEVELS ==> exists e <- tree :: |e| == |d| + 1 && e[..|d|] == d
  {
    assert Rooted(tree, d);
    if |d| < LEVELS {
      assert HasChild(tree, d);
      var e :| e in tree && Child(e, d);
    }
  }

  /** On every run, no year, month, day or hour directory is empty, every minute directory is that of a slot's time
      or of one at or before the epoch, and the directory of every file exists. */
  lemma TreeSafety(c: Config, s: State)
    requires Good(c) && Reachable(c, s)
    ensures |s.list| == c.ring
    ensures forall d <- s.tree ::
              && 1 <= |d| <= LEVELS && (|d| > 1 ==> d[..|d| - 1] in s.tree)
              && (|d| < LEVELS ==> exists e <- s.tree :: |e| == |d| + 1 && e[..|d|] == d)
    ensures forall d <- s.tree :: |d| == LEVELS ==> NamedDir(s.list, -1, d) || EarlyDir(d)
    ensures forall p <- s.files.Keys :: p.dir in s.tree
  {
    hide Reachable;
    hide DateDir;
    hide SamplesOk;
    ReachableInv(c, s);
    SkipNone(false, s.list, Skip(s), s.files.Keys, s.tree);
    assert forall p <- s.files.Keys :: p.dir in s.tree;
    assert Sound(s.tree);
    assert forall d <- s.tree :: |d| == LEVELS ==> KnownDir(false, s.list, -1, d);
    hide DiskOk;
    hide Sound;
    hide NamedDir;
    hide EarlyDir;
    forall d | d in s.tree
      ensures 1 <= |d| <= LEVELS && (|d| > 1 ==> d[..|d| - 1] in s.tree)
      ensures |d| < LEVELS ==> exists e <- s.tree :: |e| == |d| + 1 && e[..|d|] == d
    {
      TreeFacts(s.tree, d);
    }
  }

  /** On every run, the samples read since the last connection are, in order, those of the completed files,
      of the temporary file and of the record buffer; completed files are whole, and so is every file kept. */
  lemma SampleConservation(c: Config, s: State)
    requires Good(c) && Reachable(c, s) && !s.phase.Stopped?
    ensures s.taken == Flatten(Flatten(s.completed)) + Flatten(Pending(s)) + s.buf
    ensures forall f <- s.completed :: WholeFile(c, f)
    ensures forall p <- s.files.Keys :: WholeFile(c, s.files[p])
  {
    hide Reachable;
    hide DiskOk;
    hide DateDir;
    ReachableInv(c, s);
  }

  /** A completed file is always moved in place: its directory is there when the rename comes. */
  lemma RenameSucceeds(c: Config, s: State)
    requires Good(c) && Reachable(c, s) && s.phase.Moving?
    ensures s.index < |s.list| == c.ring
    ensures Next(c, s, Tick).files == s.files[PathOf(s.target) := s.tmp]
    ensures Next(c, s, Tick).completed == s.completed + [s.tmp]
  {
    hide Reachable;
    hide DiskOk;
    hide SamplesOk;
    hide WholeFile;
    hide PathOf;
    hide DateDir;
    ReachableInv(c, s);
    MoveStep(false, c, s);
  }

  lemma {:induction false} RecordsLength(f: File, n: nat)
    requires forall r <- f :: |r| == n
    ensures |Flatten(f)| == |f| * n
  {
    if f != [] {
      var k := |f| - 1;
      RecordsLength(f[..k], n);
      assert f[k] in f;
      Distribute(k, 1, n);
    }
  }

  /** A device error loses the samples read since the last file was completed, less than a file of them, and
      nothing else: on every run these are the samples taken less those of the completed files. */
  lemma ErrorKeepsStore(c: Config, s: State)
    requires Good(c) && Reachable(c, s) && Enabled(c, s, DeviceError)
    ensures s.index < |s.list| == c.ring
    ensures var t, lost := Next(c, s, DeviceError), Flatten(Pending(s)) + s.buf;
            && s.taken == Flatten(Flatten(s.completed)) + lost && |lost| < c.perFile * c.perRecord
            && Reachable(c, t) && t.buf == [] && Pending(t) == []
            && t.files == s.files && t.tree == s.tree && t.list == s.list && t.index == s.index
  {
    hide Run;
    hide DiskOk;
    hide DateDir;
    hide Flatten;
    hide WholeFile;
    ReachableInv(c, s);
    RecordsLength(Pending(s), c.perRecord);
    LessThanFile(s.written, c.perFile, c.perRecord);
    Assoc(Flatten(Flatten(s.completed)), Flatten(Pending(s)), s.buf);
    var before :| Run(c, Initial(c), before) == Some(s);
    RunOne(c, s, DeviceError);
    RunAppend(c, Initial(c), before, [DeviceError]);
  }

  lemma LessThanFile(written: nat, perFile: nat, perRecord: nat)
    requires written < perFile
    ensures written * perRecord + perRecord <= perFile * perRecord
  {
    Distribute(written, 1, perRecord);
    Distribute(perFile - written - 1, written + 1, perRecord);
  }

  lemma RunOne(c: Config, s: State, e: Event)
    requires s.index < |s.list| == c.ring && Enabled(c, s, e)
    ensures Run(c, s, [e]) == Some(Next(c, s, e))
  {
    hide Next;
    hide Enabled;
    assert [e][1..] == [];
  }

  /** A termination at any point and the restart after it leave files, tree, ring and index as they were. */
  lemma RestartKeepsStore(c: Config, s: State)
    requires s.index < |s.list| == c.ring && !s.phase.Stopped?
    ensures Next(c, Next(c, s, Signal), Restart) ==
            s.(phase := Reading, buf := [], written := 0, slot := 0, target := 0, taken := [], completed := [])
  {
    hide Dump;
    hide Restore;
    hide Statement;
    DumpRestore(s.index, s.list);
  }
}
