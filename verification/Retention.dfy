/** Which files an uninterrupted run keeps. The index moves once a record but slots are taken once a file,
    so files use the ring in strides of the records in a file. */
module Retention {
  import opened Options
  import opened DateTree
  import opened FileNames
  import opened NumberTheory
  import opened StateDump
  import opened Store
  import opened StoreRuns

  /** The slot of file `k` of a run that starts at slot `s0`. */
  function SlotOf(c: Config, s0: nat, k: nat): (i: nat)
    requires c.ring > 0
    ensures i < c.ring
  {
    After(s0, k * c.perFile, c.ring)
  }

  function PeriodOf(c: Config): (p: nat)
    requires c.ring > 0
    ensures p > 0
  {
    Period(c.ring, c.perFile)
  }

  /** Two files use one slot exactly when the period divides the distance between them. */
  lemma SameSlot(c: Config, s0: nat, j: nat, k: nat)
    requires c.ring > 0
    ensures SlotOf(c, s0, j) == SlotOf(c, s0, k) <==> Divides(PeriodOf(c), k - j)
  {
    hide Divides;
    hide Period;
    var r := c.perFile;
    Distribute(k, j, r);
    ModEqual(s0 + k * r, s0 + j * r, c.ring);
    StridePeriod(c.ring, r, k - j);
  }

  lemma NearSlotsDiffer(c: Config, s0: nat, j: nat, k: nat)
    requires c.ring > 0 && j < k < j + PeriodOf(c)
    ensures SlotOf(c, s0, j) != SlotOf(c, s0, k)
  {
    SameSlot(c, s0, j, k);
    if Divides(PeriodOf(c), k - j) {
      DividesSmall(PeriodOf(c), k - j);
    }
  }

  lemma SlotAgain(c: Config, s0: nat, k: nat)
    requires c.ring > 0
    ensures SlotOf(c, s0, k) == SlotOf(c, s0, k + PeriodOf(c))
  {
    assert Multiple(PeriodOf(c), 1, PeriodOf(c));
    SameSlot(c, s0, k, k + PeriodOf(c));
  }

  // ---------- Ring and files in terms of the files started ----------

  /** Each of the last files started has its time in its slot; slots no file used are empty. */
  ghost predicate RingHolds(c: Config, s0: nat, list: seq<int>, starts: seq<int>)
    requires c.ring > 0
  {
    && |list| == c.ring
    && (forall j :: 0 <= j < |starts| <= j + PeriodOf(c) ==> list[SlotOf(c, s0, j)] == starts[j])
    && (forall p :: 0 <= p < |list| && Unused(c, s0, |starts|, p) ==> list[p] == 0)
  }

  ghost predicate Unused(c: Config, s0: nat, n: nat, p: nat)
    requires c.ring > 0
  {
    forall j :: 0 <= j < n ==> SlotOf(c, s0, j) != p
  }

  /** File `j` is kept once those before `from` were to go: only files that began after the epoch do go. */
  predicate Kept(starts: seq<int>, from: int, j: nat)
    requires j < |starts|
  {
    from <= j || starts[j] <= 0
  }

  /** The files are those started up to `to` and kept. */
  ghost predicate FilesAre(files: set<Path>, starts: seq<int>, from: int, to: nat)
    requires to <= |starts|
  {
    && (forall j :: 0 <= j < to && Kept(starts, from, j) ==> PathOf(starts[j]) in files)
    && (forall p <- files :: exists j :: 0 <= j < to && Kept(starts, from, j) && PathOf(starts[j]) == p)
  }

  /** No two start times are in the same millisecond. */
  ghost predicate GoodStarts(starts: seq<int>) {
    forall i, j :: 0 <= i < j < |starts| ==> Milli(starts[i]) != Milli(starts[j])
  }

  lemma PathsDiffer(starts: seq<int>, i: nat, j: nat)
    requires GoodStarts(starts) && i < |starts| && j < |starts| && i != j
    ensures PathOf(starts[i]) != PathOf(starts[j])
  {
  }

  /** What the slot for the next file holds: the time of the file a period earlier, or nothing. */
  lemma NextSlotHolds(c: Config, s0: nat, list: seq<int>, starts: seq<int>)
    requires c.ring > 0 && RingHolds(c, s0, list, starts)
    ensures var k := |starts|;
            list[SlotOf(c, s0, k)] == if k >= PeriodOf(c) then starts[k - PeriodOf(c)] else 0
  {
    hide SlotOf;
    hide PeriodOf;
    var k := |starts|;
    if k >= PeriodOf(c) {
      SlotAgain(c, s0, k - PeriodOf(c));
    } else {
      forall j | 0 <= j < k
        ensures SlotOf(c, s0, j) != SlotOf(c, s0, k)
      {
        NearSlotsDiffer(c, s0, j, k);
      }
      assert Unused(c, s0, k, SlotOf(c, s0, k));
    }
  }

  /** Starting a file evicts exactly the file a period earlier, if there is one and it began after the epoch. */
  lemma EvictsPeriodEarlier(c: Config, s0: nat, list: seq<int>, starts: seq<int>,
                            files: map<Path, File>, tree: set<Dir>)
    requires c.ring > 0 && |list| == c.ring && RingHolds(c, s0, list, starts) && GoodStarts(starts)
    requires FilesAre(files.Keys, starts, |starts| - PeriodOf(c), |starts|)
    ensures var k, p := |starts|, PeriodOf(c);
            var left := Evict(list[SlotOf(c, s0, k)], files, tree).0;
            && left.Keys == files.Keys - (if k >= p && starts[k - p] > 0 then {PathOf(starts[k - p])} else {})
            && FilesAre(left.Keys, starts, k - p + 1, k)
  {
    hide SlotOf;
    hide PeriodOf;
    hide PathOf;
    hide Evict;
    hide RingHolds;
    hide FilesAre;
    hide GoodStarts;
    NextSlotHolds(c, s0, list, starts);
    EvictsFirst(list[SlotOf(c, s0, |starts|)], starts, PeriodOf(c), files, tree);
  }

  lemma EvictsFirst(previous: int, starts: seq<int>, p: nat, files: map<Path, File>, tree: set<Dir>)
    requires p > 0 && previous == (if |starts| >= p then starts[|starts| - p] else 0) && GoodStarts(starts)
    requires FilesAre(files.Keys, starts, |starts| - p, |starts|)
    ensures var k := |starts|;
            var left := Evict(previous, files, tree).0;
            && left.Keys == files.Keys - (if k >= p && starts[k - p] > 0 then {PathOf(starts[k - p])} else {})
            && FilesAre(left.Keys, starts, k - p + 1, k)
  {
    hide PathOf;
    hide Evict;
    hide FilesAre;
    var k := |starts|;
    if previous > 0 {
      EvictedKeys(previous, files, tree);
      FirstRemoved(files.Keys, starts, k - p, k);
    } else {
      NothingEvicted(previous, files, tree);
      NoneRemoved(files.Keys, starts, k - p, k);
    }
  }

  lemma EvictedKeys(t: int, files: map<Path, File>, tree: set<Dir>)
    requires t > 0
    ensures Evict(t, files, tree).0.Keys == files.Keys - {PathOf(t)}
  {
    hide PathOf;
    hide DateDir;
    hide Prune;
  }

  lemma NothingEvicted(t: int, files: map<Path, File>, tree: set<Dir>)
    requires t <= 0
    ensures Evict(t, files, tree) == (files, tree)
  {
  }

  lemma FirstRemoved(files: set<Path>, starts: seq<int>, from: nat, to: nat)
    requires from <= to <= |starts| && from < |starts| && starts[from] > 0
    requires GoodStarts(starts) && FilesAre(files, starts, from, to)
    ensures FilesAre(files - {PathOf(starts[from])}, starts, from + 1, to)
  {
    hide PathOf;
    hide GoodStarts;
    var left := files - {PathOf(starts[from])};
    forall j | 0 <= j < to && Kept(starts, from + 1, j)
      ensures PathOf(starts[j]) in left
    {
      PathsDiffer(starts, from, j);
    }
    forall q | q in left
      ensures exists j :: 0 <= j < to && Kept(starts, from + 1, j) && PathOf(starts[j]) == q
    {
      var j :| 0 <= j < to && Kept(starts, from, j) && PathOf(starts[j]) == q;
      assert Kept(starts, from + 1, j);
    }
  }

  lemma NoneRemoved(files: set<Path>, starts: seq<int>, from: int, to: nat)
    requires to <= |starts| && (0 <= from < |starts| ==> starts[from] <= 0) && FilesAre(files, starts, from, to)
    ensures FilesAre(files, starts, from + 1, to)
  {
    hide PathOf;
    assert forall j :: 0 <= j < to ==> Kept(starts, from, j) == Kept(starts, from + 1, j);
  }

  /** Taking the slot for the next file. */
  lemma ClaimHolds(c: Config, s0: nat, list: seq<int>, starts: seq<int>, t: int)
    requires c.ring > 0 && RingHolds(c, s0, list, starts)
    ensures RingHolds(c, s0, list[SlotOf(c, s0, |starts|) := t], starts + [t])
  {
    hide SlotOf;
    hide PeriodOf;
    var k := |starts|;
    var list' := list[SlotOf(c, s0, k) := t];
    var starts' := starts + [t];
    forall j | 0 <= j < k + 1 <= j + PeriodOf(c)
      ensures list'[SlotOf(c, s0, j)] == starts'[j]
    {
      if j < k {
        NearSlotsDiffer(c, s0, j, k);
      }
    }
    forall p | 0 <= p < |list| && Unused(c, s0, k + 1, p)
      ensures list'[p] == 0
    {
      assert SlotOf(c, s0, k) != p;
      assert Unused(c, s0, k, p);
    }
  }

  lemma CompleteHolds(starts: seq<int>, from: int, files: set<Path>, p: Path)
    requires starts != [] && FilesAre(files, starts, from, |starts| - 1) && from <= |starts| - 1
    requires p == PathOf(starts[|starts| - 1])
    ensures FilesAre(files + {p}, starts, from, |starts|)
  {
    hide PathOf;
    forall q | q in files + {p}
      ensures exists j :: 0 <= j < |starts| && Kept(starts, from, j) && PathOf(starts[j]) == q
    {
      if q in files {
        var j :| 0 <= j < |starts| - 1 && Kept(starts, from, j) && PathOf(starts[j]) == q;
      } else {
        assert Kept(starts, from, |starts| - 1);
      }
    }
  }

  // ---------- Uninterrupted runs ----------

  ghost predicate Uninterrupted(events: seq<Event>) {
    forall e <- events :: e.Sample? || e.RecordDone? || e.Tick?
  }

  /** Start times of the files a run starts, in order: the times of the slots it claims. */
  ghost function Starts(c: Config, s: State, events: seq<Event>): seq<int>
    requires s.index < |s.list| == c.ring
    decreases |events|
  {
    if events == [] then []
    else
      (if events[0].Tick? && s.phase.Claiming? then [s.phase.t] else [])
      + Starts(c, Next(c, s, events[0]), events[1..])
  }

  /** Files started and not yet in place: one while a file is being written. */
  ghost function Open(s: State): nat {
    if InFile(s) then 1 else 0
  }

  /** The index and the counters of an uninterrupted run that has started the files `starts` and finished
      `records` records. */
  ghost predicate Counts(c: Config, s0: nat, s: State, starts: seq<int>, records: nat)
    requires c.ring > 0
  {
    && s.index == After(s0, records, c.ring)
    && Open(s) <= |starts|
    && records + (if s.phase.Advancing? || s.phase.Moving? then 1 else 0) ==
       (|starts| - Open(s)) * c.perFile + s.written
    && (Open(s) == 1 ==> s.target == starts[|starts| - 1])
    && !s.phase.Stopped?
  }

  /** Its ring and its files: those of the last period, up to the one still open. */
  ghost predicate Keeps(c: Config, s0: nat, s: State, starts: seq<int>)
    requires c.ring > 0
  {
    && Open(s) <= |starts|
    && RingHolds(c, s0, s.list, starts)
    && FilesAre(s.files.Keys, starts, |starts| - PeriodOf(c) + (if s.phase.Claiming? then 1 else 0), |starts| - Open(s))
  }

  lemma IndexAtStart(c: Config, s0: nat, s: State, starts: seq<int>, records: nat)
    requires c.ring > 0 && Counts(c, s0, s, starts, records)
    requires s.written == 0 && (s.phase.Evicting? || s.phase.Claiming?)
    ensures s.index == SlotOf(c, s0, |starts|)
  {
  }

  /** How each statement moves the counters. */
  lemma CountsStep(c: Config, s0: nat, s: State, starts: seq<int>, records: nat)
    requires Good(c) && s.index < |s.list| == c.ring && CountOk(c, s) && Counts(c, s0, s, starts, records)
    requires s.phase.Moving? ==> DateDir(s.target) in s.tree
    ensures Counts(c, s0, Statement(c, s), if s.phase.Claiming? then starts + [s.phase.t] else starts,
                   if s.phase.Advancing? then records + 1 else records)
  {
    hide Evict;
    hide PathOf;
    hide DateDir;
    hide Create;
    AfterNext(s0, records, c.ring);
    ModAdd(s0 + records, 1, c.ring);
    Distribute(|starts| - Open(s), 1, c.perFile);
    if s.phase.Advancing? {
      assert After(s.index, 1, c.ring) == After(s0, records + 1, c.ring);
    }
    hide After;
  }

  lemma EvictKeepsLast(c: Config, s0: nat, s: State, starts: seq<int>, records: nat)
    requires c.ring > 0 && s.index < |s.list| == c.ring && s.written == 0 && s.phase.Evicting?
    requires Counts(c, s0, s, starts, records) && Keeps(c, s0, s, starts) && GoodStarts(starts)
    ensures Keeps(c, s0, Statement(c, s), starts)
  {
    hide RingHolds;
    hide FilesAre;
    hide Evict;
    hide SlotOf;
    hide PeriodOf;
    hide GoodStarts;
    hide PathOf;
    hide DateDir;
    IndexAtStart(c, s0, s, starts, records);
    EvictsPeriodEarlier(c, s0, s.list, starts, s.files, s.tree);
  }

  lemma ClaimKeepsLast(c: Config, s0: nat, s: State, starts: seq<int>, records: nat)
    requires c.ring > 0 && s.index < |s.list| == c.ring && s.written == 0 && s.phase.Claiming?
    requires Counts(c, s0, s, starts, records) && Keeps(c, s0, s, starts)
    ensures Keeps(c, s0, Statement(c, s), starts + [s.phase.t])
  {
    hide RingHolds;
    hide FilesAre;
    hide SlotOf;
    hide PeriodOf;
    hide PathOf;
    hide DateDir;
    IndexAtStart(c, s0, s, starts, records);
    ClaimHolds(c, s0, s.list, starts, s.phase.t);
    FilesExtend(s.files.Keys, starts, |starts| - PeriodOf(c) + 1, |starts|, s.phase.t);
  }

  lemma KeptFront(starts: seq<int>, from: int, t: int, j: nat)
    requires j < |starts|
    ensures Kept(starts + [t], from, j) == Kept(starts, from, j) && (starts + [t])[j] == starts[j]
  {
  }

  lemma FilesExtend(files: set<Path>, starts: seq<int>, from: int, to: nat, t: int)
    requires to <= |starts| && FilesAre(files, starts, from, to)
    ensures FilesAre(files, starts + [t], from, to)
  {
    hide PathOf;
    hide Kept;
    var starts' := starts + [t];
    forall j | 0 <= j < to && Kept(starts', from, j)
      ensures PathOf(starts'[j]) in files
    {
      KeptFront(starts, from, t, j);
    }
    forall p | p in files
      ensures exists j :: 0 <= j < to && Kept(starts', from, j) && PathOf(starts'[j]) == p
    {
      var j :| 0 <= j < to && Kept(starts, from, j) && PathOf(starts[j]) == p;
      KeptFront(starts, from, t, j);
    }
  }

  lemma MoveKeepsLast(c: Config, s0: nat, s: State, starts: seq<int>, records: nat)
    requires c.ring > 0 && s.index < |s.list| == c.ring && s.phase.Moving? && DateDir(s.target) in s.tree
    requires Counts(c, s0, s, starts, records) && Keeps(c, s0, s, starts)
    ensures Keeps(c, s0, Statement(c, s), starts)
  {
    hide RingHolds;
    hide FilesAre;
    hide PeriodOf;
    hide PathOf;
    hide DateDir;
    assert Statement(c, s).files.Keys == s.files.Keys + {PathOf(s.target)};
    CompleteHolds(starts, |starts| - PeriodOf(c), s.files.Keys, PathOf(s.target));
  }

  lemma OtherKeepsLast(c: Config, s0: nat, s: State, starts: seq<int>, e: Event)
    requires c.ring > 0 && s.index < |s.list| == c.ring && Keeps(c, s0, s, starts) && CountOk(c, s)
    requires s.phase.Reading? ==> e.Sample? || e.RecordDone?
    requires !s.phase.Reading? ==> e.Tick? && (s.phase.MakingDir? || s.phase.Writing? || s.phase.Advancing?)
    ensures Keeps(c, s0, Next(c, s, e), starts)
  {
    hide RingHolds;
    hide FilesAre;
    hide PeriodOf;
    hide PathOf;
    hide DateDir;
    hide Create;
    hide After;
  }

  lemma ReadingCounts(c: Config, s0: nat, s: State, starts: seq<int>, records: nat, e: Event)
    requires c.ring > 0 && s.index < |s.list| == c.ring && s.phase.Reading? && (e.Sample? || e.RecordDone?)
    requires Counts(c, s0, s, starts, records)
    ensures Counts(c, s0, Next(c, s, e), starts, records)
  {
    hide After;
  }

  /** What one event of an uninterrupted run does: it may start a file, and it may finish a record. */
  lemma EventHolds(c: Config, s0: nat, s: State, e: Event, starts: seq<int>, records: nat) returns (more: nat)
    requires Inv(false, c, s) && Enabled(c, s, e) && (e.Sample? || e.RecordDone? || e.Tick?)
    requires Counts(c, s0, s, starts, records) && Keeps(c, s0, s, starts) && GoodStarts(starts)
    ensures var starts' := starts + if e.Tick? && s.phase.Claiming? then [s.phase.t] else [];
            Counts(c, s0, Next(c, s, e), starts', more) && Keeps(c, s0, Next(c, s, e), starts')
  {
    hide DiskOk;
    hide SamplesOk;
    hide WholeFile;
    hide Counts;
    hide Keeps;
    hide GoodStarts;
    hide Statement;
    assert starts + [] == starts;
    more := records;
    if e.Tick? {
      CountsStep(c, s0, s, starts, records);
      match s.phase
      case Evicting(_) => EvictKeepsLast(c, s0, s, starts, records);
      case Claiming(_) => ClaimKeepsLast(c, s0, s, starts, records);
      case Moving => MoveKeepsLast(c, s0, s, starts, records);
      case Advancing =>
        more := records + 1;
        OtherKeepsLast(c, s0, s, starts, e);
      case _ => OtherKeepsLast(c, s0, s, starts, e);
    } else {
      ReadingCounts(c, s0, s, starts, records, e);
      OtherKeepsLast(c, s0, s, starts, e);
    }
  }

  lemma GoodPrefix(starts: seq<int>, more: seq<int>)
    requires GoodStarts(starts + more)
    ensures GoodStarts(starts)
  {
    hide Milli;
    forall i, j | 0 <= i < j < |starts|
      ensures Milli(starts[i]) != Milli(starts[j])
    {
      assert (starts + more)[i] == starts[i] && (starts + more)[j] == starts[j];
    }
  }

  lemma {:induction false} RunHolds(c: Config, s0: nat, s: State, events: seq<Event>, starts: seq<int>, records: nat)
    returns (more: nat)
    requires Inv(false, c, s) && s.index < |s.list| == c.ring && Uninterrupted(events) && Run(c, s, events).Some?
    requires Counts(c, s0, s, starts, records) && Keeps(c, s0, s, starts)
    requires GoodStarts(starts + Starts(c, s, events))
    ensures var all := starts + Starts(c, s, events);
            Counts(c, s0, Run(c, s, events).value, all, more) && Keeps(c, s0, Run(c, s, events).value, all)
    decreases |events|
  {
    hide Inv;
    hide Enabled;
    hide Counts;
    hide Keeps;
    hide GoodStarts;
    hide Next;
    if events == [] {
      more := records;
      assert starts + [] == starts;
    } else {
      var e, s' := events[0], Next(c, s, events[0]);
      var started := if e.Tick? && s.phase.Claiming? then [s.phase.t] else [];
      assert e in events;
      GoodPrefix(starts, Starts(c, s, events));
      more := EventHolds(c, s0, s, e, starts, records);
      StepKeeps(false, c, s, e);
      assert starts + Starts(c, s, events) == starts + started + Starts(c, s', events[1..]);
      more := RunHolds(c, s0, s', events[1..], starts + started, more);
    }
  }

  /** A run that starts with an empty ring and disk at some slot. */
  function Begin(c: Config, s0: nat): State {
    Initial(c).(index := s0)
  }

  lemma BeginHolds(c: Config, s0: nat)
    requires Good(c) && s0 < c.ring
    ensures Inv(false, c, Begin(c, s0)) && Counts(c, s0, Begin(c, s0), [], 0) && Keeps(c, s0, Begin(c, s0), [])
  {
    InitialInv(false, c);
    AfterNext(s0, 0, c.ring);
    hide After;
  }

  // ---------- Main results ----------

  /** On every uninterrupted run from an empty ring of size M with R records in a file, whose files start in
      different milliseconds: file k takes slot s0 + kR of the ring, and while it is written the permanent files are
      exactly the M / gcd(M, R) - 1 files before it (or all, if fewer) and those older ones that began at or before
      the epoch. */
  lemma RetainedFiles(c: Config, s0: nat, events: seq<Event>, s: State, starts: seq<int>)
    requires Good(c) && s0 < c.ring && Uninterrupted(events)
    requires Run(c, Begin(c, s0), events) == Some(s) && starts == Starts(c, Begin(c, s0), events)
    requires GoodStarts(starts) && InFile(s)
    ensures |starts| > 0 && s.target == starts[|starts| - 1]
    ensures s.slot < |s.list| && s.list[s.slot] == s.target
    ensures SlotOf(c, s0, |starts| - 1) < |s.list| && s.list[SlotOf(c, s0, |starts| - 1)] == s.target
    ensures FilesAre(s.files.Keys, starts, |starts| - PeriodOf(c), |starts| - 1)
    ensures PeriodOf(c) * Gcd(c.ring, c.perFile) == c.ring
  {
    var records := RunFromEmpty(c, s0, events, s, starts);
    OpenFile(c, s0, s, starts, records);
  }

  lemma RunFromEmpty(c: Config, s0: nat, events: seq<Event>, s: State, starts: seq<int>) returns (records: nat)
    requires Good(c) && s0 < c.ring && Uninterrupted(events)
    requires Run(c, Begin(c, s0), events) == Some(s) && starts == Starts(c, Begin(c, s0), events)
    requires GoodStarts(starts)
    ensures Inv(false, c, s) && Counts(c, s0, s, starts, records) && Keeps(c, s0, s, starts)
  {
    hide Run;
    hide Starts;
    hide Inv;
    hide Counts;
    hide Keeps;
    hide GoodStarts;
    BeginHolds(c, s0);
    assert [] + starts == starts;
    RunKeeps(false, c, Begin(c, s0), events);
    records := RunHolds(c, s0, Begin(c, s0), events, [], 0);
  }

  lemma OpenFile(c: Config, s0: nat, s: State, starts: seq<int>, records: nat)
    requires Inv(false, c, s) && Counts(c, s0, s, starts, records) && Keeps(c, s0, s, starts) && InFile(s)
    ensures |starts| > 0 && s.target == starts[|starts| - 1]
    ensures s.slot < |s.list| && s.list[s.slot] == s.target
    ensures SlotOf(c, s0, |starts| - 1) < |s.list| && s.list[SlotOf(c, s0, |starts| - 1)] == s.target
    ensures FilesAre(s.files.Keys, starts, |starts| - PeriodOf(c), |starts| - 1)
  {
    hide DiskOk;
    hide SamplesOk;
    hide WholeFile;
    hide FilesAre;
    hide PathOf;
    hide DateDir;
    hide SlotOf;
    hide PeriodOf;
  }
}
