/** The store of miniseed files as a state machine: the ring of file times, the record counter, the
    temporary file, the permanent files and the directory tree (`collect_and_write`, `main`, `term_handler`).
    A termination signal may come between any two statements that change the store. */
module Store {
  import opened Options
  import opened Seqs
  import opened Calendar
  import opened DateTree
  import opened FileNames
  import opened StateDump

  type Record = seq<int>   // the samples of one record
  type File = seq<Record>

  /** Ring size, records in a file, samples in a record. */
  datatype Config = Config(ring: nat, perFile: nat, perRecord: nat)

  ghost predicate Good(c: Config) {
    c.ring > 0 && c.perFile > 0 && c.perRecord > 0
  }

  /** Where a file with this start time is kept. */
  function PathOf(t: int): (p: Path)
    ensures |p.dir| == LEVELS
  {
    Path(DateDir(t), Milli(t))
  }

  /** The directory of a file is that of its minute in the calendar, and its name tells the millisecond. */
  lemma PathOfIs(t: int, tm: Tm)
    requires Valid(tm) && PosixSeconds(tm) == t / 1000000
    ensures PathOf(t) == Path([tm.year, tm.mon, tm.mday, tm.hour, tm.min], t / 1000)
  {
    hide Gmtime;
    hide PosixSeconds;
    OnlyTm(t, tm);
  }

  /** Files with one path are files with one name, so the path stands for the name printed. */
  lemma PathIsName(t: int, u: int)
    requires -999 <= TmOf(t).year <= 9999 && -999 <= TmOf(u).year <= 9999
    ensures PathOf(t) == PathOf(u) <==> NameOf(t) == NameOf(u)
  {
    hide Gmtime;
    hide NameOf;
    hide DateDir;
    hide TmOf;
    hide Milli;
    NamesDistinct(t, u);
    if Milli(t) == Milli(u) {
      SameDir(t, u);
    }
  }

  lemma SameDir(t: int, u: int)
    requires Milli(t) == Milli(u)
    ensures DateDir(t) == DateDir(u)
  {
    hide Gmtime;
    assert Second(t) == Second(u);
  }

  /** Where the program stands. The middle ones are the statements that follow a completed record;
      `t` is the record's start time. */
  datatype Phase =
    | Reading
    | Evicting(t: int)
    | Claiming(t: int)
    | MakingDir(t: int)
    | Writing(first: bool)
    | Moving
    | Advancing
    | Stopped(state: string)

  datatype State = State(
    phase: Phase,
    index: nat, list: seq<int>,          // file_index and filetime_list
    written: nat,                        // num_records_written
    slot: nat, target: int,              // slot and start time of the file being written
    tmp: File, buf: seq<int>,            // the temporary file and the record buffer
    files: map<Path, File>, tree: set<Dir>,
    taken: seq<int>, completed: seq<File>)  // samples read and files completed since the last connection

  datatype Event =
    | Sample(v: int)        // a value read from the device
    | RecordDone(t: int)    // the buffer is full and its start time estimated
    | Tick                  // the next statement
    | DeviceError           // reading fails; the program reconnects
    | Signal                // termination, with the state saved
    | Restart               // the program starts again and restores the state

  function Initial(c: Config): State {
    State(Reading, 0, Zeros(c.ring), 0, 0, 0, [], [], map[], {}, [], [])
  }

  ghost predicate Enabled(c: Config, s: State, e: Event) {
    match e
    case Sample(_) => s.phase.Reading? && |s.buf| < c.perRecord
    case RecordDone(_) => s.phase.Reading? && |s.buf| == c.perRecord
    case Tick => !s.phase.Reading? && !s.phase.Stopped?
    case DeviceError => s.phase.Reading? && |s.buf| < c.perRecord
    case Signal => !s.phase.Stopped?
    case Restart => s.phase.Stopped?
  }

  /** Removing the file a slot names and the directories left empty; an empty slot names none. */
  function Evict(previous: int, files: map<Path, File>, tree: set<Dir>): (map<Path, File>, set<Dir>) {
    if previous > 0 then
      var left := files - {PathOf(previous)};
      (left, Prune(tree, left.Keys, DateDir(previous)))
    else (files, tree)
  }

  /** Statements left before the program reads again. */
  function Rank(p: Phase): nat {
    match p
    case Evicting(_) => 6
    case Claiming(_) => 5
    case MakingDir(_) => 4
    case Writing(_) => 3
    case Moving => 2
    case Advancing => 1
    case _ => 0
  }

  function Statement(c: Config, s: State): (r: State)
    requires s.index < |s.list| == c.ring
    ensures r.index < |r.list| == c.ring
    ensures r == s || Rank(r.phase) < Rank(s.phase)
  {
    match s.phase
    case Evicting(t) =>
      var (files, tree) := Evict(s.list[s.index], s.files, s.tree);
      s.(files := files, tree := tree, phase := Claiming(t))
    case Claiming(t) =>
      s.(list := s.list[s.index := t], slot := s.index, target := t, phase := MakingDir(t))
    case MakingDir(t) =>
      s.(tree := Create(s.tree, DateDir(t)), phase := Writing(true))
    case Writing(first) =>
      s.(tmp := (if first then [] else s.tmp) + [s.buf], buf := [], written := s.written + 1,
         phase := if s.written + 1 >= c.perFile then Moving else Advancing)
    case Moving =>
      var moved := if DateDir(s.target) in s.tree
                   then s.(files := s.files[PathOf(s.target) := s.tmp], completed := s.completed + [s.tmp], tmp := [])
                   else s;
      moved.(written := 0, phase := Advancing)
    case Advancing =>
      s.(index := After(s.index, 1, c.ring), phase := Reading)
    case _ => s
  }

  function Next(c: Config, s: State, e: Event): (r: State)
    requires s.index < |s.list| == c.ring
    ensures r.index < |r.list| == c.ring
  {
    match e
    case Sample(v) => s.(buf := s.buf + [v], taken := s.taken + [v])
    case RecordDone(t) => s.(phase := if s.written == 0 then Evicting(t) else Writing(false))
    case Tick => Statement(c, s)
    case DeviceError => s.(buf := [], written := 0, taken := [], completed := [])
    case Signal => s.(phase := Stopped(Dump(s.index, s.list)))
    case Restart =>
      if s.phase.Stopped? then
        var (index, list) := Restore(Some(s.phase.state), c.ring);
        s.(phase := Reading, index := index, list := list, buf := [], written := 0, slot := 0, target := 0,
           taken := [], completed := [])
      else s
  }

  // ---------- The disk and the ring ----------

  /** Some slot, other than `skip`, names the file. */
  ghost predicate Named(list: seq<int>, skip: int, p: Path) {
    exists i :: 0 <= i < |list| && i != skip && list[i] > 0 && PathOf(list[i]) == p
  }

  /** Some slot, other than `skip`, has a time whose minute directory this is. */
  ghost predicate NamedDir(list: seq<int>, skip: int, d: Dir) {
    exists i :: 0 <= i < |list| && i != skip && list[i] > 0 && DateDir(list[i]) == d
  }

  /** The file of a time at or before the epoch. The code takes such a time for an empty slot. */
  ghost predicate Early(p: Path) {
    exists t :: t <= 0 && PathOf(t) == p
  }

  ghost predicate EarlyDir(d: Dir) {
    exists t :: t <= 0 && DateDir(t) == d
  }

  /** What the slots account for: everything, if all records start after the epoch - `late` says so. */
  ghost predicate Known(late: bool, list: seq<int>, skip: int, p: Path) {
    Named(list, skip, p) || (!late && Early(p))
  }

  ghost predicate KnownDir(late: bool, list: seq<int>, skip: int, d: Dir) {
    NamedDir(list, skip, d) || (!late && EarlyDir(d))
  }

  /** Every file is accounted for and its directory exists; every minute directory is accounted for; no directory
      above is empty. */
  ghost predicate DiskOk(late: bool, list: seq<int>, skip: int, files: set<Path>, tree: set<Dir>) {
    && Sound(tree)
    && (forall p <- files :: |p.dir| == LEVELS && p.dir in tree && Known(late, list, skip, p))
    && (forall d <- tree :: |d| == LEVELS ==> KnownDir(late, list, skip, d))
  }

  lemma StillNamed(late: bool, list: seq<int>, index: nat, p: Path)
    requires index < |list| && Known(late, list, -1, p)
    requires list[index] > 0 ==> p != PathOf(list[index])
    ensures Known(late, list, index, p)
  {
    hide PathOf;
    hide Early;
    if Named(list, -1, p) {
      var i :| 0 <= i < |list| && list[i] > 0 && PathOf(list[i]) == p;
      assert i != index;
    }
  }

  lemma StillNamedDir(late: bool, list: seq<int>, index: nat, d: Dir)
    requires index < |list| && KnownDir(late, list, -1, d)
    requires list[index] > 0 ==> d != DateDir(list[index])
    ensures KnownDir(late, list, index, d)
  {
    hide DateDir;
    hide EarlyDir;
    if NamedDir(list, -1, d) {
      var i :| 0 <= i < |list| && list[i] > 0 && DateDir(list[i]) == d;
      assert i != index;
    }
  }

  lemma NamedGivesDir(late: bool, list: seq<int>, skip: int, p: Path)
    requires Known(late, list, skip, p)
    ensures KnownDir(late, list, skip, p.dir)
  {
    hide DateDir;
    hide Milli;
    if Named(list, skip, p) {
      var i :| 0 <= i < |list| && i != skip && list[i] > 0 && PathOf(list[i]) == p;
      assert DateDir(list[i]) == p.dir;
    } else {
      var t :| t <= 0 && PathOf(t) == p;
      assert DateDir(t) == p.dir;
    }
  }

  /** After the slot's file is removed the other slots account for the whole disk. */
  lemma EvictKeeps(late: bool, list: seq<int>, index: nat, files: map<Path, File>, tree: set<Dir>)
    requires index < |list| && DiskOk(late, list, -1, files.Keys, tree)
    ensures var (files', tree') := Evict(list[index], files, tree);
            && DiskOk(late, list, index, files'.Keys, tree')
            && (forall p <- files'.Keys :: p in files && files'[p] == files[p])
  {
    hide PathOf;
    hide DateDir;
    hide Prune;
    hide Sound;
    hide Known;
    hide KnownDir;
    var previous := list[index];
    if previous > 0 {
      var left := files - {PathOf(previous)};
      assert left.Keys == files.Keys - {PathOf(previous)};
      PruneKeeps(tree, left.Keys, DateDir(previous));
      var tree' := Prune(tree, left.Keys, DateDir(previous));
      forall p | p in left.Keys
        ensures Known(late, list, index, p) && |p.dir| == LEVELS && p.dir in tree'
      {
        assert Known(late, list, -1, p);
        StillNamed(late, list, index, p);
      }
      forall d | d in tree' && |d| == LEVELS
        ensures KnownDir(late, list, index, d)
      {
        if d == DateDir(previous) {
          var p :| p in left.Keys && p.dir == d;
          NamedGivesDir(late, list, index, p);
        } else {
          StillNamedDir(late, list, index, d);
        }
      }
    } else {
      forall p | p in files.Keys
        ensures Known(late, list, index, p)
      {
        StillNamed(late, list, index, p);
      }
      forall d | d in tree && |d| == LEVELS
        ensures KnownDir(late, list, index, d)
      {
        StillNamedDir(late, list, index, d);
      }
    }
  }

  lemma NamedAfterClaim(late: bool, list: seq<int>, index: nat, t: int, p: Path)
    requires index < |list| && Known(late, list, index, p)
    ensures Known(late, list[index := t], -1, p)
  {
    hide PathOf;
    hide Early;
    if Named(list, index, p) {
      var i :| 0 <= i < |list| && i != index && list[i] > 0 && PathOf(list[i]) == p;
      assert list[index := t][i] == list[i];
    }
  }

  lemma NamedDirAfterClaim(late: bool, list: seq<int>, index: nat, t: int, d: Dir)
    requires index < |list| && KnownDir(late, list, index, d)
    ensures KnownDir(late, list[index := t], -1, d)
  {
    hide DateDir;
    hide EarlyDir;
    if NamedDir(list, index, d) {
      var i :| 0 <= i < |list| && i != index && list[i] > 0 && DateDir(list[i]) == d;
      assert list[index := t][i] == list[i];
    }
  }

  /** Giving the slot a new time disturbs nothing the other slots account for. */
  lemma ClaimKeeps(late: bool, list: seq<int>, index: nat, t: int, files: set<Path>, tree: set<Dir>)
    requires index < |list| && DiskOk(late, list, index, files, tree)
    ensures DiskOk(late, list[index := t], -1, files, tree)
  {
    hide Known;
    hide KnownDir;
    hide Sound;
    forall p | p in files
      ensures Known(late, list[index := t], -1, p)
    {
      NamedAfterClaim(late, list, index, t, p);
    }
    forall d | d in tree && |d| == LEVELS
      ensures KnownDir(late, list[index := t], -1, d)
    {
      NamedDirAfterClaim(late, list, index, t, d);
    }
  }

  lemma SlotKnown(late: bool, list: seq<int>, slot: nat)
    requires slot < |list| && (late ==> list[slot] > 0)
    ensures Known(late, list, -1, PathOf(list[slot])) && KnownDir(late, list, -1, DateDir(list[slot]))
  {
    hide DateDir;
    hide Milli;
    var t := list[slot];
    if t > 0 {
      assert Named(list, -1, PathOf(t)) && NamedDir(list, -1, DateDir(t));
    } else {
      assert Early(PathOf(t)) && EarlyDir(DateDir(t));
    }
  }

  lemma MakeKeeps(late: bool, list: seq<int>, slot: nat, files: set<Path>, tree: set<Dir>)
    requires slot < |list| && (late ==> list[slot] > 0) && DiskOk(late, list, -1, files, tree)
    ensures DiskOk(late, list, -1, files, Create(tree, DateDir(list[slot])))
  {
    hide PathOf;
    hide DateDir;
    hide Sound;
    hide Create;
    hide Known;
    hide KnownDir;
    CreateKeeps(tree, DateDir(list[slot]));
    SlotKnown(late, list, slot);
  }

  lemma MoveKeeps(late: bool, list: seq<int>, slot: nat, files: set<Path>, tree: set<Dir>)
    requires slot < |list| && (late ==> list[slot] > 0) && DateDir(list[slot]) in tree
    requires DiskOk(late, list, -1, files, tree)
    ensures DiskOk(late, list, -1, files + {PathOf(list[slot])}, tree)
  {
    hide Sound;
    hide DateDir;
    hide Milli;
    hide Known;
    hide KnownDir;
    SlotKnown(late, list, slot);
  }

  lemma SkipNone(late: bool, list: seq<int>, skip: int, files: set<Path>, tree: set<Dir>)
    requires DiskOk(late, list, skip, files, tree)
    ensures DiskOk(late, list, -1, files, tree)
  {
    hide PathOf;
    hide DateDir;
    hide Sound;
    hide Early;
    hide EarlyDir;
    forall p | p in files
      ensures Known(late, list, -1, p)
    {
      assert Known(late, list, skip, p);
    }
    forall d | d in tree && |d| == LEVELS
      ensures KnownDir(late, list, -1, d)
    {
      assert KnownDir(late, list, skip, d);
    }
  }

  // ---------- The invariant ----------

  /** While a slot's file is removed and its new time not yet set, the other slots account for the disk. */
  function Skip(s: State): int {
    if s.phase.Claiming? then s.index else -1
  }

  ghost predicate RingOk(c: Config, s: State) {
    s.index < |s.list| == c.ring && (s.phase.Stopped? ==> s.phase.state == Dump(s.index, s.list))
  }

  /** A file is being written: from the claim of its slot until it is renamed or abandoned. */
  ghost predicate InFile(s: State) {
    match s.phase
    case Reading => s.written > 0
    case Writing(_) => true
    case MakingDir(_) => true
    case Moving => true
    case Advancing => s.written > 0
    case _ => false
  }

  /** The file being written keeps its slot, and its directory once that is made. */
  ghost predicate TargetOk(late: bool, s: State) {
    InFile(s) ==>
      && s.slot < |s.list| && s.list[s.slot] == s.target && (late ==> s.target > 0)
      && (s.phase.MakingDir? ==> s.phase.t == s.target)
      && (!s.phase.MakingDir? ==> DateDir(s.target) in s.tree)
  }

  /** The file about to be started begins after the epoch, if all do. */
  ghost predicate StartOk(late: bool, p: Phase) {
    late ==> (p.Evicting? || p.Claiming? ==> p.t > 0)
  }

  /** The counter agrees with the phase. */
  ghost predicate CountOk(c: Config, s: State) {
    match s.phase
    case Reading => s.written < c.perFile
    case Evicting(_) => s.written == 0
    case Claiming(_) => s.written == 0
    case MakingDir(_) => s.written == 0
    case Writing(first) => s.written < c.perFile && (first <==> s.written == 0)
    case Moving => s.written == c.perFile
    case Advancing => s.written < c.perFile
    case Stopped(_) => true
  }

  ghost predicate WholeRecords(c: Config, f: File) {
    forall r <- f :: |r| == c.perRecord
  }

  ghost predicate WholeFile(c: Config, f: File) {
    |f| == c.perFile && WholeRecords(c, f)
  }

  /** The part of the temporary file that belongs to the file being written. */
  function Pending(s: State): File {
    if s.written > 0 then s.tmp else []
  }

  /** Samples read since the last connection: completed files, then the temporary file, then the buffer. */
  ghost predicate SamplesOk(c: Config, s: State) {
    && s.taken == Flatten(Flatten(s.completed)) + Flatten(Pending(s)) + s.buf
    && |Pending(s)| == s.written && WholeRecords(c, Pending(s))
    && (forall f <- s.completed :: WholeFile(c, f))
    && |s.buf| <= c.perRecord
    && (!s.phase.Reading? && !s.phase.Stopped? && !s.phase.Moving? && !s.phase.Advancing? ==> |s.buf| == c.perRecord)
  }

  ghost predicate Inv(late: bool, c: Config, s: State) {
    && Good(c) && RingOk(c, s) && TargetOk(late, s) && StartOk(late, s.phase) && CountOk(c, s)
    && DiskOk(late, s.list, Skip(s), s.files.Keys, s.tree)
    && (!s.phase.Stopped? ==> SamplesOk(c, s))
    && (forall p <- s.files.Keys :: WholeFile(c, s.files[p]))
  }

  lemma InitialInv(late: bool, c: Config)
    requires Good(c)
    ensures Inv(late, c, Initial(c))
  {
    assert Flatten<File>([]) == [];
  }

  // ---------- Every step keeps the invariant ----------

  lemma SampleKeeps(late: bool, c: Config, s: State, v: int)
    requires Inv(late, c, s) && Enabled(c, s, Sample(v))
    ensures Inv(late, c, Next(c, s, Sample(v)))
  {
    hide DiskOk;
    hide WholeRecords;
    hide WholeFile;
    Assoc(Flatten(Flatten(s.completed)) + Flatten(Pending(s)), s.buf, [v]);
  }

  lemma RecordDoneKeeps(late: bool, c: Config, s: State, t: int)
    requires Inv(late, c, s) && Enabled(c, s, RecordDone(t)) && (late ==> t > 0)
    ensures Inv(late, c, Next(c, s, RecordDone(t)))
  {
    hide DiskOk;
    hide WholeRecords;
    hide WholeFile;
  }

  lemma EvictStep(late: bool, c: Config, s: State)
    requires Inv(late, c, s) && s.phase.Evicting?
    ensures Inv(late, c, Statement(c, s))
  {
    hide DiskOk;
    hide WholeRecords;
    hide WholeFile;
    hide Evict;
    hide Flatten;
    EvictKeeps(late, s.list, s.index, s.files, s.tree);
  }

  lemma ClaimStep(late: bool, c: Config, s: State)
    requires Inv(late, c, s) && s.phase.Claiming?
    ensures Inv(late, c, Statement(c, s))
  {
    hide DiskOk;
    hide WholeRecords;
    hide WholeFile;
    ClaimKeeps(late, s.list, s.index, s.phase.t, s.files.Keys, s.tree);
  }

  lemma MakeDirStep(late: bool, c: Config, s: State)
    requires Inv(late, c, s) && s.phase.MakingDir?
    ensures Inv(late, c, Statement(c, s))
  {
    hide DiskOk;
    hide WholeRecords;
    hide WholeFile;
    hide Create;
    hide DateDir;
    hide Flatten;
    MakeKeeps(late, s.list, s.slot, s.files.Keys, s.tree);
    CreateMakes(s.tree, DateDir(s.target));
  }

  lemma CreateMakes(tree: set<Dir>, d: Dir)
    requires d != []
    ensures d in Create(tree, d)
  {
  }

  /** The buffer moves to the end of the pending records. */
  lemma BufferWritten(before: seq<int>, pending: File, buf: Record)
    ensures before + Flatten(pending) + buf == before + Flatten(pending + [buf]) + []
  {
    FlattenSnoc(pending, buf);
    hide Flatten;
    Assoc(before, Flatten(pending), buf);
    assert before + Flatten(pending + [buf]) + [] == before + Flatten(pending + [buf]);
  }

  lemma WriteSamples(c: Config, s: State)
    requires SamplesOk(c, s) && s.phase.Writing? && (s.phase.first <==> s.written == 0)
    requires Good(c) && RingOk(c, s)
    ensures SamplesOk(c, Statement(c, s))
  {
    hide Flatten;
    hide WholeFile;
    var s' := Statement(c, s);
    assert Pending(s') == Pending(s) + [s.buf];
    BufferWritten(Flatten(Flatten(s.completed)), Pending(s), s.buf);
  }

  lemma WriteStep(late: bool, c: Config, s: State)
    requires Inv(late, c, s) && s.phase.Writing?
    ensures Inv(late, c, Statement(c, s))
  {
    hide DiskOk;
    hide DateDir;
    hide SamplesOk;
    hide WholeFile;
    WriteSamples(c, s);
  }

  lemma FileCompleted(completed: seq<File>, tmp: File)
    ensures Flatten(Flatten(completed + [tmp])) == Flatten(Flatten(completed)) + Flatten(tmp)
  {
    FlattenSnoc(completed, tmp);
    FlattenAppend(Flatten(completed), tmp);
  }

  lemma NothingPending(samples: seq<int>, buf: seq<int>)
    ensures samples + Flatten<int>([]) + buf == samples + buf
  {
  }

  lemma MoveSamples(c: Config, s: State)
    requires SamplesOk(c, s) && s.phase.Moving? && s.written == c.perFile && DateDir(s.target) in s.tree
    requires Good(c) && RingOk(c, s)
    ensures SamplesOk(c, Statement(c, s)) && WholeFile(c, s.tmp)
  {
    hide Flatten;
    hide PathOf;
    hide DateDir;
    FileCompleted(s.completed, s.tmp);
    NothingPending(Flatten(Flatten(s.completed)) + Flatten(s.tmp), s.buf);
  }

  lemma MoveStep(late: bool, c: Config, s: State)
    requires Inv(late, c, s) && s.phase.Moving?
    ensures Inv(late, c, Statement(c, s))
    ensures Statement(c, s).completed == s.completed + [s.tmp]
    ensures Statement(c, s).files == s.files[PathOf(s.target) := s.tmp]
  {
    hide DiskOk;
    hide PathOf;
    hide DateDir;
    hide SamplesOk;
    hide WholeFile;
    MoveSamples(c, s);
    MoveKeeps(late, s.list, s.slot, s.files.Keys, s.tree);
    assert Statement(c, s).files.Keys == s.files.Keys + {PathOf(s.target)};
  }

  lemma AdvanceStep(late: bool, c: Config, s: State)
    requires Inv(late, c, s) && s.phase.Advancing?
    ensures Inv(late, c, Statement(c, s))
  {
    hide DiskOk;
    hide WholeRecords;
    hide WholeFile;
    hide DateDir;
  }

  lemma ErrorKeeps(late: bool, c: Config, s: State)
    requires Inv(late, c, s) && s.phase.Reading?
    ensures Inv(late, c, Next(c, s, DeviceError))
  {
    hide DiskOk;
    hide DateDir;
    FreshSamples(c, Next(c, s, DeviceError));
    hide SamplesOk;
    hide WholeFile;
  }

  lemma SignalKeeps(late: bool, c: Config, s: State)
    requires Inv(late, c, s)
    ensures Inv(late, c, Next(c, s, Signal))
  {
    hide DiskOk;
    hide DateDir;
    hide Dump;
    hide SamplesOk;
    hide WholeFile;
    SkipNone(late, s.list, Skip(s), s.files.Keys, s.tree);
  }

  /** A restart restores the index and the ring, and starts with an empty buffer and no file. */
  lemma RestartKeeps(late: bool, c: Config, s: State)
    requires Inv(late, c, s) && s.phase.Stopped?
    ensures Inv(late, c, Next(c, s, Restart))
    ensures Next(c, s, Restart) ==
            s.(phase := Reading, buf := [], written := 0, slot := 0, target := 0, taken := [], completed := [])
  {
    hide DiskOk;
    hide DateDir;
    hide Dump;
    hide Restore;
    hide WholeFile;
    DumpRestore(s.index, s.list);
    FreshSamples(c, Next(c, s, Restart));
    hide SamplesOk;
  }

  lemma FreshSamples(c: Config, s: State)
    requires s.taken == [] && s.completed == [] && s.buf == [] && s.written == 0 && s.phase.Reading?
    ensures SamplesOk(c, s)
  {
  }

  /** Every event keeps the invariant; it keeps the part on slots if no record starts at or before the epoch. */
  lemma StepKeeps(late: bool, c: Config, s: State, e: Event)
    requires Inv(late, c, s) && Enabled(c, s, e) && (late && e.RecordDone? ==> e.t > 0)
    ensures Inv(late, c, Next(c, s, e))
  {
    match e
    case Sample(v) => SampleKeeps(late, c, s, v);
    case RecordDone(t) => RecordDoneKeeps(late, c, s, t);
    case DeviceError => ErrorKeeps(late, c, s);
    case Signal => SignalKeeps(late, c, s);
    case Restart => RestartKeeps(late, c, s);
    case Tick =>
      match s.phase
      case Evicting(_) => EvictStep(late, c, s);
      case Claiming(_) => ClaimStep(late, c, s);
      case MakingDir(_) => MakeDirStep(late, c, s);
      case Writing(_) => WriteStep(late, c, s);
      case Moving => MoveStep(late, c, s);
      case Advancing => AdvanceStep(late, c, s);
      case _ =>
  }
}
