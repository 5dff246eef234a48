/** Files of records that start at or before the epoch. The code takes such times for empty slots, so it never
    removes the files that begin with them: that is where the bound on the number of files fails. */
module EarlyFiles {
  import opened Options
  import opened DateTree
  import opened FileNames
  import opened StateDump
  import opened Store
  import opened StoreRuns

  // ---------- When a file is left behind ----------

  /** Taking a slot over removes its file exactly when that began after the epoch; if not, and no other slot names
      it, no slot does from then on. */
  lemma TakenOver(c: Config, s: State, u: int)
    requires s.index < |s.list| == c.ring && s.phase == Evicting(u)
    requires PathOf(s.list[s.index]) in s.files && Milli(u) != Milli(s.list[s.index])
    requires forall i :: 0 <= i < |s.list| && i != s.index && s.list[i] > 0 ==>
               PathOf(s.list[i]) != PathOf(s.list[s.index])
    ensures var p, r := PathOf(s.list[s.index]), Statement(c, Statement(c, s));
            && (p in r.files <==> s.list[s.index] <= 0)
            && r.phase == MakingDir(u) && !Named(r.list, -1, p)
  {
    hide DateDir;
    hide Milli;
    hide Prune;
    var r := Statement(c, Statement(c, s));
    forall i | 0 <= i < |r.list| && r.list[i] > 0
      ensures PathOf(r.list[i]) != PathOf(s.list[s.index])
    {
      assert i != s.index ==> r.list[i] == s.list[i];
    }
  }

  lemma EvictedIsLate(t: int, files: map<Path, File>, tree: set<Dir>, p: Path)
    requires p in files && p.ms < 0
    ensures p in Evict(t, files, tree).0
  {
    hide DateDir;
    hide Prune;
  }

  lemma StepKeepsEarly(c: Config, s: State, e: Event, p: Path)
    requires s.index < |s.list| == c.ring && p in s.files && p.ms < 0
    ensures p in Next(c, s, e).files
  {
    hide PathOf;
    hide DateDir;
    hide Evict;
    hide Create;
    hide Dump;
    hide Restore;
    EvictedIsLate(s.list[s.index], s.files, s.tree, p);
  }

  /** On every run a file that began before the epoch stays on disk for good. */
  lemma {:induction false} EarlyFilesStay(c: Config, s: State, events: seq<Event>, p: Path)
    requires Run(c, s, events).Some? && p in s.files && p.ms < 0
    ensures p in Run(c, s, events).value.files
    decreases |events|
  {
    hide Next;
    hide Enabled;
    if events != [] {
      StepKeepsEarly(c, s, events[0], p);
      EarlyFilesStay(c, Next(c, s, events[0]), events[1..], p);
    }
  }

  // ---------- A run on which the bound fails ----------

  /** The events that write one record with the value `v`. */
  function OneRecord(v: int, t: int): seq<Event> {
    [Sample(v), RecordDone(t), Tick, Tick, Tick, Tick, Tick, Tick]
  }

  /** A ring of one slot, one record in a file and one sample in a record. */
  const SMALLEST: Config := Config(1, 1, 1)

  /** Between files: nothing read and nothing begun. */
  ghost predicate Idle(s: State) {
    s.phase.Reading? && s.index == 0 && |s.list| == 1 && s.written == 0 && s.buf == []
  }

  lemma StepRun(s: State, e: Event, rest: seq<Event>)
    requires s.index < |s.list| == 1 && Enabled(SMALLEST, s, e)
    ensures Run(SMALLEST, s, [e] + rest) == Run(SMALLEST, Next(SMALLEST, s, e), rest)
  {
    hide Next;
    hide Enabled;
    assert ([e] + rest)[1..] == rest;
  }

  /** Starting a file removes the one the slot names, unless its time is at or before the epoch. */
  lemma StartOne(s: State, v: int, t: int) returns (r: State)
    requires Idle(s)
    ensures r.phase == Writing(true) && r.index == 0 && r.list == [t] && r.target == t && r.written == 0
    ensures r.buf == [v] && DateDir(t) in r.tree
    ensures r.files == if s.list[0] > 0 then s.files - {PathOf(s.list[0])} else s.files
    ensures forall rest ::
              Run(SMALLEST, s, [Sample(v), RecordDone(t), Tick, Tick, Tick] + rest) == Run(SMALLEST, r, rest)
  {
    hide PathOf;
    hide DateDir;
    hide Prune;
    hide Run;
    var c := SMALLEST;
    var s1 := Next(c, s, Sample(v));
    var s2 := Next(c, s1, RecordDone(t));
    var s3 := Next(c, s2, Tick);
    var s4 := Next(c, s3, Tick);
    r := Next(c, s4, Tick);
    CreateMakes(s4.tree, DateDir(t));
    forall rest
      ensures Run(c, s, [Sample(v), RecordDone(t), Tick, Tick, Tick] + rest) == Run(c, r, rest)
    {
      StepRun(s, Sample(v), [RecordDone(t), Tick, Tick, Tick] + rest);
      StepRun(s1, RecordDone(t), [Tick, Tick, Tick] + rest);
      StepRun(s2, Tick, [Tick, Tick] + rest);
      StepRun(s3, Tick, [Tick] + rest);
      StepRun(s4, Tick, rest);
      assert [Sample(v), RecordDone(t), Tick, Tick, Tick] + rest ==
             [Sample(v)] + ([RecordDone(t), Tick, Tick, Tick] + rest);
      assert [RecordDone(t), Tick, Tick, Tick] + rest == [RecordDone(t)] + ([Tick, Tick, Tick] + rest);
      assert [Tick, Tick, Tick] + rest == [Tick] + ([Tick, Tick] + rest);
      assert [Tick, Tick] + rest == [Tick] + ([Tick] + rest);
    }
  }

  lemma FinishOne(s: State, t: int) returns (r: State)
    requires s.phase == Writing(true) && s.index == 0 && s.list == [t] && s.target == t && s.written == 0
    requires DateDir(t) in s.tree
    ensures Idle(r) && r.list == [t] && r.files == s.files[PathOf(t) := [s.buf]]
    ensures Run(SMALLEST, s, [Tick, Tick, Tick]) == Some(r)
  {
    hide PathOf;
    hide DateDir;
    hide Run;
    var c := SMALLEST;
    var s1 := Next(c, s, Tick);
    var s2 := Next(c, s1, Tick);
    r := Next(c, s2, Tick);
    assert s1.tmp == [s.buf];
    StepRun(s, Tick, [Tick, Tick]);
    StepRun(s1, Tick, [Tick]);
    StepRun(s2, Tick, []);
    assert [Tick, Tick, Tick] == [Tick] + [Tick, Tick] && [Tick, Tick] == [Tick] + [Tick] && [Tick] == [Tick] + [];
    NoEvents(c, r);
  }

  lemma NoEvents(c: Config, s: State)
    ensures Run(c, s, []) == Some(s)
  {
  }

  lemma OneFile(s: State, v: int, t: int) returns (r: State)
    requires Idle(s)
    ensures Run(SMALLEST, s, OneRecord(v, t)) == Some(r) && Idle(r) && r.list == [t]
    ensures r.files == (if s.list[0] > 0 then s.files - {PathOf(s.list[0])} else s.files)[PathOf(t) := [[v]]]
  {
    hide PathOf;
    hide DateDir;
    hide Run;
    hide Idle;
    var m := StartOne(s, v, t);
    r := FinishOne(m, t);
    assert OneRecord(v, t) == [Sample(v), RecordDone(t), Tick, Tick, Tick] + [Tick, Tick, Tick];
  }

  /** Two records, each a file of its own, on a ring of one slot: the first file is still there after the second
      exactly when it began at or before the epoch. The store then holds more files than the ring has slots, and
      no slot names the first one. */
  lemma EarlyFileStays(t: int, u: int) returns (s: State)
    requires u > 0 && Milli(t) != Milli(u)
    ensures Run(SMALLEST, Initial(SMALLEST), OneRecord(1, t) + OneRecord(2, u)) == Some(s)
    ensures s.list == [u] && PathOf(u) in s.files
    ensures PathOf(t) in s.files <==> t <= 0
    ensures |s.files| == if t <= 0 then 2 else 1
  {
    hide Milli;
    hide DateDir;
    hide Run;
    hide Idle;
    var s0 := Initial(SMALLEST);
    InitialIdle();
    var m := OneFile(s0, 1, t);
    s := OneFile(m, 2, u);
    RunAppend(SMALLEST, s0, OneRecord(1, t), OneRecord(2, u));
    assert s.files.Keys == if t <= 0 then {PathOf(t), PathOf(u)} else {PathOf(u)};
    assert |s.files| == |s.files.Keys|;
  }

  lemma InitialIdle()
    ensures Idle(Initial(SMALLEST)) && Initial(SMALLEST).list[0] == 0 && Initial(SMALLEST).files == map[]
  {
  }
}
