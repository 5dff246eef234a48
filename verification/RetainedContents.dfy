/** What is in the files an uninterrupted run keeps: each holds the records it was completed with. */
module RetainedContents {
  import opened Options
  import opened DateTree
  import opened FileNames
  import opened Store
  import opened StoreRuns
  import opened Retention

  /** First of the files kept, counted from the start of the run. */
  function FirstKept(c: Config, s: State, starts: seq<int>): int
    requires c.ring > 0
  {
    |starts| - PeriodOf(c) + if s.phase.Claiming? then 1 else 0
  }

  ghost predicate HoldsFile(s: State, starts: seq<int>, j: nat)
    requires j < |starts| && j < |s.completed|
  {
    PathOf(starts[j]) in s.files && s.files[PathOf(starts[j])] == s.completed[j]
  }

  /** The files kept hold the records they were completed with. */
  ghost predicate Contents(c: Config, s: State, starts: seq<int>)
    requires c.ring > 0
  {
    && |s.completed| == |starts| - Open(s)
    && forall j :: 0 <= j < |s.completed| && j < |starts| && Kept(starts, FirstKept(c, s, starts), j) ==>
         HoldsFile(s, starts, j)
  }

  lemma EvictContents(c: Config, s: State, starts: seq<int>)
    requires s.index < |s.list| == c.ring && s.phase.Evicting? && DiskOk(false, s.list, -1, s.files.Keys, s.tree)
    requires Contents(c, s, starts)
    requires FilesAre(Statement(c, s).files.Keys, starts, |starts| - PeriodOf(c) + 1, |starts|)
    ensures Contents(c, Statement(c, s), starts)
  {
    hide PathOf;
    hide DateDir;
    hide Prune;
    hide PeriodOf;
    hide Sound;
    hide Evict;
    EvictKeeps(false, s.list, s.index, s.files, s.tree);
    var r := Statement(c, s);
    forall j | 0 <= j < |r.completed| && j < |starts| && Kept(starts, FirstKept(c, r, starts), j)
      ensures HoldsFile(r, starts, j)
    {
      assert HoldsFile(s, starts, j);
    }
  }

  lemma ClaimContents(c: Config, s: State, starts: seq<int>)
    requires s.index < |s.list| == c.ring && s.phase.Claiming? && Contents(c, s, starts)
    ensures Contents(c, Statement(c, s), starts + [s.phase.t])
  {
    hide PathOf;
    hide DateDir;
    hide PeriodOf;
    var r, starts' := Statement(c, s), starts + [s.phase.t];
    forall j | 0 <= j < |r.completed| && j < |starts'| && Kept(starts', FirstKept(c, r, starts'), j)
      ensures HoldsFile(r, starts', j)
    {
      assert HoldsFile(s, starts, j);
    }
  }

  lemma MoveContents(c: Config, s: State, starts: seq<int>)
    requires s.index < |s.list| == c.ring && s.phase.Moving? && DateDir(s.target) in s.tree && Contents(c, s, starts)
    requires GoodStarts(starts) && s.target == starts[|starts| - 1]
    ensures Contents(c, Statement(c, s), starts)
  {
    hide PathOf;
    hide DateDir;
    hide PeriodOf;
    hide GoodStarts;
    var r := Statement(c, s);
    forall j | 0 <= j < |r.completed| && j < |starts| && Kept(starts, FirstKept(c, r, starts), j)
      ensures HoldsFile(r, starts, j)
    {
      if j < |s.completed| {
        assert HoldsFile(s, starts, j);
        PathsDiffer(starts, j, |starts| - 1);
      }
    }
  }

  lemma OtherContents(c: Config, s: State, starts: seq<int>, e: Event)
    requires s.index < |s.list| == c.ring && Contents(c, s, starts) && CountOk(c, s)
    requires s.phase.Reading? ==> e.Sample? || e.RecordDone?
    requires !s.phase.Reading? ==> e.Tick? && (s.phase.MakingDir? || s.phase.Writing? || s.phase.Advancing?)
    ensures Contents(c, Next(c, s, e), starts)
  {
    hide PathOf;
    hide DateDir;
    hide Create;
    hide PeriodOf;
    var r := Next(c, s, e);
    forall j | 0 <= j < |r.completed| && j < |starts| && Kept(starts, FirstKept(c, r, starts), j)
      ensures HoldsFile(r, starts, j)
    {
      assert HoldsFile(s, starts, j);
    }
  }

  lemma EventContents(c: Config, s0: nat, s: State, e: Event, starts: seq<int>, records: nat)
    requires Inv(false, c, s) && Enabled(c, s, e) && (e.Sample? || e.RecordDone? || e.Tick?)
    requires Counts(c, s0, s, starts, records) && GoodStarts(starts) && Contents(c, s, starts)
    requires Keeps(c, s0, Next(c, s, e), starts + if e.Tick? && s.phase.Claiming? then [s.phase.t] else [])
    ensures Contents(c, Next(c, s, e), starts + if e.Tick? && s.phase.Claiming? then [s.phase.t] else [])
  {
    hide DiskOk;
    hide SamplesOk;
    hide WholeFile;
    hide GoodStarts;
    hide Contents;
    hide Statement;
    hide RingHolds;
    hide FilesAre;
    hide PeriodOf;
    hide PathOf;
    hide DateDir;
    assert starts + [] == starts;
    if e.Tick? && s.phase.Evicting? {
      EvictedPhase(c, s);
      EvictContents(c, s, starts);
    } else if e.Tick? && s.phase.Claiming? {
      ClaimContents(c, s, starts);
    } else if e.Tick? && s.phase.Moving? {
      MoveContents(c, s, starts);
    } else {
      OtherContents(c, s, starts, e);
    }
  }

  lemma EvictedPhase(c: Config, s: State)
    requires s.index < |s.list| == c.ring && s.phase.Evicting?
    ensures Statement(c, s).phase.Claiming?
  {
    hide Evict;
  }

  lemma {:induction false} RunContents(c: Config, s0: nat, s: State, events: seq<Event>, starts: seq<int>, records: nat)
    requires Inv(false, c, s) && s.index < |s.list| == c.ring && Uninterrupted(events) && Run(c, s, events).Some?
    requires Counts(c, s0, s, starts, records) && Keeps(c, s0, s, starts) && Contents(c, s, starts)
    requires GoodStarts(starts + Starts(c, s, events))
    ensures Contents(c, Run(c, s, events).value, starts + Starts(c, s, events))
    decreases |events|
  {
    hide Inv;
    hide Enabled;
    hide Counts;
    hide Keeps;
    hide GoodStarts;
    hide Contents;
    hide Next;
    if events == [] {
      assert starts + [] == starts;
    } else {
      var e, s' := events[0], Next(c, s, events[0]);
      var started := if e.Tick? && s.phase.Claiming? then [s.phase.t] else [];
      assert e in events;
      GoodPrefix(starts, Starts(c, s, events));
      var more := EventHolds(c, s0, s, e, starts, records);
      EventContents(c, s0, s, e, starts, records);
      StepKeeps(false, c, s, e);
      assert starts + Starts(c, s, events) == starts + started + Starts(c, s', events[1..]);
      RunContents(c, s0, s', events[1..], starts + started, more);
    }
  }

  lemma BeginContents(c: Config, s0: nat)
    requires Good(c) && s0 < c.ring
    ensures Contents(c, Begin(c, s0), [])
  {
  }

  /** On every uninterrupted run from an empty ring whose files start in different milliseconds after the epoch,
      the files kept hold the records they were completed with. */
  lemma KeptAsCompleted(c: Config, s0: nat, events: seq<Event>, s: State, starts: seq<int>)
    requires Good(c) && s0 < c.ring && Uninterrupted(events)
    requires Run(c, Begin(c, s0), events) == Some(s) && starts == Starts(c, Begin(c, s0), events)
    requires GoodStarts(starts)
    ensures |s.completed| == |starts| - Open(s)
    ensures forall j :: 0 <= j < |s.completed| && j < |starts| && Kept(starts, FirstKept(c, s, starts), j) ==>
              PathOf(starts[j]) in s.files && s.files[PathOf(starts[j])] == s.completed[j]
  {
    hide Run;
    hide Starts;
    hide Inv;
    hide Counts;
    hide Keeps;
    hide GoodStarts;
    hide PathOf;
    hide PeriodOf;
    BeginHolds(c, s0);
    BeginContents(c, s0);
    assert [] + starts == starts;
    RunContents(c, s0, Begin(c, s0), events, [], 0);
    assert Contents(c, s, starts);
    forall j | 0 <= j < |s.completed| && j < |starts| && Kept(starts, FirstKept(c, s, starts), j)
      ensures PathOf(starts[j]) in s.files && s.files[PathOf(starts[j])] == s.completed[j]
    {
      assert HoldsFile(s, starts, j);
    }
  }
}
