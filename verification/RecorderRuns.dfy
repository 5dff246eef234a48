/** The program's loops as runs of the store: what they reach, which samples they keep, and when their
    records start. */
module RecorderRuns {
  import opened Options
  import opened Seqs
  import opened DateTree
  import opened FileNames
  import opened StateDump
  import opened Store
  import opened StoreRuns
  import opened Recorder
  import E = Estimator
  import R = Retention
  import D = ErrorDynamics

  /** Every record of the connection starts after the epoch. */
  ghost predicate PositiveStarts(c: Config, a: real, clock: E.Clock, readings: seq<DeviceValue>)
    requires c.perRecord > 0
    decreases |readings|
  {
    var k := Lead(readings, c.perRecord);
    k == c.perRecord ==>
      var clock' := E.NextClock(c.perRecord, a, clock, Times(readings[..k]));
      clock'.prev > 0 && PositiveStarts(c, a, clock', readings[k..])
  }

  lemma {:induction false} SampledIsRun(c: Config, s: State, values: seq<int>) returns (events: seq<Event>)
    requires s.index < |s.list| == c.ring && s.phase.Reading? && |s.buf| + |values| <= c.perRecord
    ensures Run(c, s, events) == Some(Sampled(s, values))
    ensures R.Uninterrupted(events) && R.Starts(c, s, events) == [] && Late(events)
    decreases |values|
  {
    if values == [] {
      events := [];
      assert s.buf + values == s.buf && s.taken + values == s.taken;
    } else {
      var s' := Next(c, s, Sample(values[0]));
      assert s'.buf + values[1..] == s.buf + values && s'.taken + values[1..] == s.taken + values;
      var rest := SampledIsRun(c, s', values[1..]);
      events := [Sample(values[0])] + rest;
      assert events[1..] == rest;
    }
  }

  predicate InRecord(p: Phase) {
    p.Evicting? || p.Claiming? || p.MakingDir? || p.Writing?
  }

  /** The record counter one record later. */
  function Turn(c: Config, written: nat): nat {
    if written + 1 >= c.perFile then 0 else written + 1
  }

  /** The record counter when the program reads again. */
  function WrittenAfter(c: Config, s: State): nat {
    if InRecord(s.phase) then Turn(c, s.written) else if s.phase.Moving? then 0 else s.written
  }

  /** The file about to be started, if there is one. */
  function ToStart(p: Phase): seq<int> {
    match p
    case Evicting(t) => [t]
    case Claiming(t) => [t]
    case _ => []
  }

  lemma StatementPhase(c: Config, s: State)
    requires s.index < |s.list| == c.ring && Rank(s.phase) > 0
    ensures var r := Statement(c, s);
            && Rank(r.phase) < Rank(s.phase) && !r.phase.Stopped?
            && (InRecord(s.phase) ==> InRecord(r.phase) || r.buf == [])
            && (s.buf == [] ==> r.buf == [])
            && WrittenAfter(c, r) == WrittenAfter(c, s)
            && ToStart(s.phase) == (if s.phase.Claiming? then [s.phase.t] else []) + ToStart(r.phase)
  {
    hide Evict;
    hide PathOf;
    hide DateDir;
    hide Create;
    hide After;
  }

  lemma {:induction false} SettleIsRun(c: Config, s: State) returns (events: seq<Event>)
    requires s.index < |s.list| == c.ring && !s.phase.Stopped? && (InRecord(s.phase) || s.buf == [])
    ensures Run(c, s, events) == Some(Settle(c, s))
    ensures Settle(c, s).phase.Reading? && Settle(c, s).buf == [] && Settle(c, s).written == WrittenAfter(c, s)
    ensures R.Uninterrupted(events) && R.Starts(c, s, events) == ToStart(s.phase) && Late(events)
    decreases Rank(s.phase)
  {
    hide Statement;
    if Rank(s.phase) == 0 {
      events := [];
    } else {
      StatementPhase(c, s);
      var rest := SettleIsRun(c, Statement(c, s));
      events := [Tick] + rest;
      assert events[1..] == rest;
    }
  }

  lemma RecordedIsRun(c: Config, s: State, values: seq<int>, t: int) returns (events: seq<Event>)
    requires s.index < |s.list| == c.ring && s.phase.Reading? && s.buf == [] && |values| == c.perRecord
    ensures var r := Settle(c, Next(c, Sampled(s, values), RecordDone(t)));
            Run(c, s, events) == Some(r) && r.phase.Reading? && r.buf == [] && r.written == Turn(c, s.written)
    ensures R.Uninterrupted(events) && R.Starts(c, s, events) == if s.written == 0 then [t] else []
    ensures t > 0 ==> Late(events)
  {
    hide Settle;
    hide Run;
    hide R.Starts;
    var s1 := Sampled(s, values);
    var samples := SampledIsRun(c, s, values);
    var s2 := Next(c, s1, RecordDone(t));
    var steps := SettleIsRun(c, s2);
    RunOne(c, s1, RecordDone(t));
    RunAppend(c, s1, [RecordDone(t)], steps);
    RunAppend(c, s, samples, [RecordDone(t)] + steps);
    StartsAppend(c, s, samples, [RecordDone(t)] + steps);
    StartsAppend(c, s1, [RecordDone(t)], steps);
    StartsOfDone(c, s1, t);
    events := samples + ([RecordDone(t)] + steps);
  }

  lemma StartsOfDone(c: Config, s: State, t: int)
    requires s.index < |s.list| == c.ring
    ensures R.Starts(c, s, [RecordDone(t)]) == []
  {
  }

  lemma {:induction false} StartsAppend(c: Config, s: State, first: seq<Event>, rest: seq<Event>)
    requires s.index < |s.list| == c.ring && Run(c, s, first).Some?
    ensures var r := Run(c, s, first).value;
            r.index < |r.list| == c.ring && R.Starts(c, s, first + rest) == R.Starts(c, s, first) + R.Starts(c, r, rest)
    decreases |first|
  {
    hide Next;
    hide Enabled;
    if first == [] {
      assert first + rest == rest;
    } else {
      var all := first + rest;
      assert all[0] == first[0] && all[1..] == first[1..] + rest;
      StartsAppend(c, Next(c, s, first[0]), first[1..], rest);
    }
  }

  /** Start times of the records a connection completes. */
  function RecordStarts(c: Config, a: real, clock: E.Clock, readings: seq<DeviceValue>): seq<int>
    requires c.perRecord > 0
    decreases |readings|
  {
    var k := Lead(readings, c.perRecord);
    if k < c.perRecord then []
    else
      var clock' := E.NextClock(c.perRecord, a, clock, Times(readings[..k]));
      [clock'.prev] + RecordStarts(c, a, clock', readings[k..])
  }

  /** Those of them that start a file, if `written` records of a file are there already. */
  function FileStarts(c: Config, written: nat, starts: seq<int>): seq<int>
    decreases |starts|
  {
    if starts == [] then []
    else (if written == 0 then [starts[0]] else []) + FileStarts(c, Turn(c, written), starts[1..])
  }

  /** Collecting from a connection is a run of the store. */
  lemma {:induction false} CollectedIsRun(c: Config, a: real, s: State, clock: E.Clock, readings: seq<DeviceValue>)
    returns (events: seq<Event>)
    requires Good(c) && s.index < |s.list| == c.ring && s.phase.Reading? && s.buf == []
    ensures var r := Collected(c, a, s, clock, readings).0;
            Run(c, s, events) == Some(r) && r.phase.Reading? && |r.buf| < c.perRecord
    ensures R.Uninterrupted(events) && (PositiveStarts(c, a, clock, readings) ==> Late(events))
    ensures R.Starts(c, s, events) == FileStarts(c, s.written, RecordStarts(c, a, clock, readings))
    decreases |readings|
  {
    hide R.Starts;
    hide Settle;
    hide Next;
    hide Run;
    hide Lead;
    hide E.NextClock;
    var k := Lead(readings, c.perRecord);
    CollectedNext(c, a, s, clock, readings);
    if k < c.perRecord {
      hide Collected;
      events := SampledIsRun(c, s, Values(readings[..k]));
    } else {
      var clock' := E.NextClock(c.perRecord, a, clock, Times(readings[..k]));
      var first := RecordedIsRun(c, s, Values(readings[..k]), clock'.prev);
      var s' := Settle(c, Next(c, Sampled(s, Values(readings[..k])), RecordDone(clock'.prev)));
      var rest := CollectedIsRun(c, a, s', clock', readings[k..]);
      RunAppend(c, s, first, rest);
      StartsAppend(c, s, first, rest);
      events := first + rest;
    }
  }

  // ---------- Main results ----------

  ghost predicate AllPositive(c: Config, a: real, window: real, connections: seq<seq<DeviceValue>>)
    requires c.perRecord > 0
  {
    forall readings <- connections :: PositiveStarts(c, a, E.Clock(window, -1), readings)
  }

  /** Between two connections: the device has failed, or the program has just started. */
  ghost predicate Failed(c: Config, s: State) {
    s.index < |s.list| == c.ring && s.phase.Reading? && |s.buf| < c.perRecord
  }

  lemma ConnectionIsRun(c: Config, a: real, window: real, s: State, readings: seq<DeviceValue>)
    returns (events: seq<Event>)
    requires Good(c) && Failed(c, s)
    ensures var r := Collected(c, a, Next(c, s, DeviceError), E.Clock(window, -1), readings).0;
            Run(c, s, events) == Some(r) && Failed(c, r)
    ensures PositiveStarts(c, a, E.Clock(window, -1), readings) ==> Late(events)
  {
    hide Run;
    hide Collected;
    hide PositiveStarts;
    RunOne(c, s, DeviceError);
    var more := CollectedIsRun(c, a, Next(c, s, DeviceError), E.Clock(window, -1), readings);
    RunAppend(c, s, [DeviceError], more);
    events := [DeviceError] + more;
  }

  lemma {:induction false} ServedIsRun(c: Config, a: real, window: real, s: State, connections: seq<seq<DeviceValue>>)
    returns (events: seq<Event>)
    requires Good(c) && Failed(c, s)
    ensures var r := Served(c, a, window, s, connections);
            Run(c, s, events) == Some(r) && Failed(c, r)
    ensures AllPositive(c, a, window, connections) ==> Late(events)
    decreases |connections|
  {
    hide Collected;
    hide PositiveStarts;
    hide Next;
    if connections == [] {
      events := [];
    } else {
      hide Run;
      var first := ConnectionIsRun(c, a, window, s, connections[0]);
      var r := Collected(c, a, Next(c, s, DeviceError), E.Clock(window, -1), connections[0]).0;
      var rest := ServedIsRun(c, a, window, r, connections[1..]);
      RunAppend(c, s, first, rest);
      events := first + rest;
    }
  }

  /** Whatever the devices deliver over any number of connections, the program's loops stay within the reachable
      states of the store, so all that holds on every run holds of them; and if all records start after the epoch,
      within those that all such runs reach. */
  lemma ServedReachable(c: Config, a: real, window: real, s: State, connections: seq<seq<DeviceValue>>)
    requires Good(c) && Reachable(c, s) && Failed(c, s)
    ensures var r := Served(c, a, window, s, connections);
            && Reachable(c, r) && Failed(c, r)
            && (LateReachable(c, s) && AllPositive(c, a, window, connections) ==> LateReachable(c, r))
  {
    hide Run;
    hide Served;
    hide AllPositive;
    var events := ServedIsRun(c, a, window, s, connections);
    ReachableOn(c, s, events);
  }

  lemma ReachableOn(c: Config, s: State, events: seq<Event>)
    requires Run(c, s, events).Some?
    ensures Reachable(c, s) ==> Reachable(c, Run(c, s, events).value)
    ensures LateReachable(c, s) && Late(events) ==> LateReachable(c, Run(c, s, events).value)
  {
    hide Run;
    if Reachable(c, s) {
      var before :| Run(c, Initial(c), before) == Some(s);
      RunAppend(c, Initial(c), before, events);
    }
    if LateReachable(c, s) && Late(events) {
      var before :| Run(c, Initial(c), before) == Some(s) && Late(before);
      RunAppend(c, Initial(c), before, events);
    }
  }

  /** A program started on an empty disk without a state file is in the initial state. One started from the text
      that a termination saved, on the disk this left, is in the state that the store's restart gives: it goes on
      within the reachable states. */
  lemma StartedReachable(c: Config, s: State)
    requires Good(c) && Reachable(c, s) && !s.phase.Stopped?
    ensures s.index < |s.list| == c.ring
    ensures Started(c, None, [], map[], {}) == Initial(c)
    ensures var stopped := Next(c, s, Signal);
            var r := Started(c, Some(stopped.phase.state), s.tmp, s.files, s.tree);
            && r == Next(c, stopped, Restart) && Reachable(c, r) && Failed(c, r)
            && (LateReachable(c, s) ==> LateReachable(c, r))
  {
    hide Run;
    hide Next;
    hide Started;
    hide Reachable;
    hide LateReachable;
    hide Inv;
    ReachableInv(c, s);
    IndexInRing(c, s);
    StartedIs(c, s);
    var stopped := Next(c, s, Signal);
    RunOne(c, s, Signal);
    RunOne(c, stopped, Restart);
    RunAppend(c, s, [Signal], [Restart]);
    ReachableOn(c, s, [Signal] + [Restart]);
  }

  lemma IndexInRing(c: Config, s: State)
    requires Inv(false, c, s)
    ensures s.index < |s.list| == c.ring
  {
    hide DiskOk;
    hide SamplesOk;
    hide WholeFile;
  }

  lemma StartedIs(c: Config, s: State)
    requires Good(c) && s.index < |s.list| == c.ring && !s.phase.Stopped?
    ensures Started(c, None, [], map[], {}) == Initial(c)
    ensures var stopped := Next(c, s, Signal);
            var r := Next(c, stopped, Restart);
            && stopped.phase.Stopped? && Started(c, Some(stopped.phase.state), s.tmp, s.files, s.tree) == r
            && Failed(c, r)
  {
    hide Restore;
    hide Dump;
    FreshRing(c);
    DumpRestore(s.index, s.list);
  }

  lemma FreshRing(c: Config)
    requires c.ring > 0
    ensures Restore(None, c.ring) == (0, Zeros(c.ring))
  {
  }

  /** The values a device delivers, up to the first that is a read error or out of the range of 16 bits, are in the
      files the connection completed, then the temporary file, then the record buffer: in order, none lost and none
      doubled. */
  lemma EverySampleKept(c: Config, a: real, window: real, s: State, readings: seq<DeviceValue>)
    requires Good(c) && Reachable(c, s) && Failed(c, s)
    ensures var r := Collected(c, a, Next(c, s, DeviceError), E.Clock(window, -1), readings).0;
            && UpToFailure(readings, Flatten(Flatten(r.completed)) + Flatten(Pending(r)) + r.buf)
            && (forall f <- r.completed :: WholeFile(c, f)) && |Pending(r)| < c.perFile && |r.buf| < c.perRecord
  {
    hide Reachable;
    hide LateReachable;
    hide Run;
    hide Collected;
    hide PositiveStarts;
    hide Flatten;
    hide WholeFile;
    hide DiskOk;
    hide UpToFailure;
    var s0, clock := Next(c, s, DeviceError), E.Clock(window, -1);
    var events := ConnectionIsRun(c, a, window, s, readings);
    ReachableOn(c, s, events);
    CollectedStops(c, a, s0, clock, readings);
    var r := Collected(c, a, s0, clock, readings).0;
    SampleConservation(c, r);
    ReachableInv(c, r);
  }

  // ---------- The starts of the records ----------

  /** Timestamps of the records a connection completes. */
  function Records(n: nat, readings: seq<DeviceValue>): seq<seq<int>>
    requires n > 0
    decreases |readings|
  {
    var k := Lead(readings, n);
    if k < n then [] else [Times(readings[..k])] + Records(n, readings[k..])
  }

  lemma {:induction false} ClocksFromFirst(n: nat, a: real, clock: E.Clock, h: seq<int>, hs: seq<seq<int>>)
    requires n > 0
    ensures E.Clocks(n, a, clock, [h] + hs) == E.Clocks(n, a, E.NextClock(n, a, clock, h), hs)
    decreases |hs|
  {
    hide E.NextClock;
    var all := [h] + hs;
    if hs == [] {
      assert all[..0] == [];
    } else {
      ClocksFromFirst(n, a, clock, h, hs[..|hs| - 1]);
      assert all[..|all| - 1] == [h] + hs[..|hs| - 1];
    }
  }

  /** The clock a connection ends with is the estimator's, run over the timestamps of the completed records. */
  lemma {:induction false} CollectedClock(c: Config, a: real, s: State, clock: E.Clock, readings: seq<DeviceValue>)
    requires s.index < |s.list| == c.ring && c.perRecord > 0
    ensures Collected(c, a, s, clock, readings).1 == E.Clocks(c.perRecord, a, clock, Records(c.perRecord, readings))
    decreases |readings|
  {
    hide Settle;
    hide Next;
    hide Lead;
    hide E.NextClock;
    hide E.Clocks;
    var n := c.perRecord;
    var k := Lead(readings, n);
    CollectedNext(c, a, s, clock, readings);
    hide Collected;
    if k < n {
      ClocksOfNone(n, a, clock);
    } else {
      var clock' := E.NextClock(n, a, clock, Times(readings[..k]));
      CollectedClock(c, a, Settle(c, Next(c, Sampled(s, Values(readings[..k])), RecordDone(clock'.prev))), clock',
                     readings[k..]);
      ClocksFromFirst(n, a, clock, Times(readings[..k]), Records(n, readings[k..]));
    }
  }

  lemma ClocksOfNone(n: nat, a: real, clock: E.Clock)
    requires n > 0
    ensures E.Clocks(n, a, clock, []) == clock
  {
  }

  /** The estimator's starts over these records are after the epoch. */
  ghost predicate ClocksPositive(n: nat, a: real, clock: E.Clock, hs: seq<seq<int>>)
    requires n > 0
  {
    forall j :: 0 < j <= |hs| ==> E.Clocks(n, a, clock, hs[..j]).prev > 0
  }

  lemma {:induction false} PositiveClocks(c: Config, a: real, clock: E.Clock, readings: seq<DeviceValue>)
    requires c.perRecord > 0
    requires ClocksPositive(c.perRecord, a, clock, Records(c.perRecord, readings))
    ensures PositiveStarts(c, a, clock, readings)
    decreases |readings|
  {
    hide Lead;
    hide E.NextClock;
    hide E.Clocks;
    var n := c.perRecord;
    var k := Lead(readings, n);
    if k == n {
      var h, rest := Times(readings[..k]), Records(n, readings[k..]);
      var hs, clock' := Records(n, readings), E.NextClock(n, a, clock, h);
      assert hs == [h] + rest;
      ClocksFromFirst(n, a, clock, h, []);
      ClocksOfNone(n, a, clock');
      assert hs[..1] == [h] + [];
      assert E.Clocks(n, a, clock, hs[..1]).prev > 0;
      assert ClocksPositive(n, a, clock, hs);
      forall j | 0 < j <= |rest|
        ensures E.Clocks(n, a, clock', rest[..j]).prev > 0
      {
        ClocksFromFirst(n, a, clock, h, rest[..j]);
        assert hs[..j + 1] == [h] + rest[..j];
        assert E.Clocks(n, a, clock, hs[..j + 1]).prev > 0;
      }
      PositiveClocks(c, a, clock', readings[k..]);
    }
  }

  /** If the device's timestamps follow a true clock up to some jitter, for which the estimator has a level, all
      records start after the epoch: the loops are then a run of the store without further assumption. */
  lemma AccurateStarts(c: Config, a: real, window: real, readings: seq<DeviceValue>,
                       t0: real, w: real, jitter: real, level: real)
    requires c.perRecord > 0 && jitter >= 0.0
    requires var g := D.Gain(a, E.MeanIndex(c.perRecord));
             g.Stable() && D.Level(g, jitter + 0.5, level) && E.Roomy(g, level, w, t0)
    requires E.Stream(c.perRecord, t0, w, jitter, Records(c.perRecord, readings))
    requires var hs := Records(c.perRecord, readings);
             hs != [] ==> D.V(D.Gain(a, E.MeanIndex(c.perRecord)),
                              E.Errors(E.FirstClock(c.perRecord, window, hs[0]), w, t0)) <= level
    ensures PositiveStarts(c, a, E.Clock(window, -1), readings)
  {
    hide E.MeanIndex;
    hide E.Clocks;
    hide Records;
    hide D.V;
    hide D.Level;
    hide E.Roomy;
    hide E.Errors;
    hide E.FirstClock;
    hide PositiveStarts;
    hide D.Gain.Stable;
    hide E.Timestamps;
    var n := c.perRecord;
    var hs := Records(n, readings);
    forall j | 0 < j <= |hs|
      ensures E.Clocks(n, a, E.Clock(window, -1), hs[..j]).prev > 0
    {
      assert hs[..j][0] == hs[0];
      E.StartsStayTrue(n, a, window, hs[..j], t0, w, jitter, level);
    }
    PositiveClocks(c, a, E.Clock(window, -1), readings);
  }

  /** When every measured window is a millisecond or more, no two records start in the same millisecond: the
      files the records begin have different names. */
  lemma {:induction false} StartsApart(n: nat, a: real, clock: E.Clock, hs: seq<seq<int>>, lo: real, hi: real,
                                       i: nat, j: nat)
    requires n > 0 && 0.0 <= a <= 1.0 && 0.0 <= lo <= clock.window <= hi && E.Ticks(lo) >= 1000.0
    requires E.MeasuredWithin(n, a, clock, hs, lo, hi)
    requires i < j <= |hs| && E.Clocks(n, a, clock, hs[..i]).prev > 0
    ensures Milli(E.Clocks(n, a, clock, hs[..i]).prev) < Milli(E.Clocks(n, a, clock, hs[..j]).prev)
    decreases j - i
  {
    hide E.MeasuredWithin;
    hide E.StepWithin;
    hide E.Clocks;
    hide Milli;
    E.StartsIncrease(n, a, clock, hs, lo, hi);
    var first, next := E.Clocks(n, a, clock, hs[..i]), E.Clocks(n, a, clock, hs[..i + 1]);
    assert E.StepWithin(first, next, lo, hi);
    MilliStep(first, next, lo, hi);
    if i + 1 < j {
      StartsApart(n, a, clock, hs, lo, hi, i + 1, j);
    }
  }

  lemma MilliStep(first: E.Clock, next: E.Clock, lo: real, hi: real)
    requires E.StepWithin(first, next, lo, hi) && first.prev > 0 && E.Ticks(lo) >= 1000.0
    ensures Milli(first.prev) < Milli(next.prev) && next.prev > 0
  {
  }

  lemma RoomGrows(g: D.Gain, level: real, v: real, w: real, t: real)
    requires g.Stable() && E.Roomy(g, level, v, t) && v <= w
    ensures E.Roomy(g, level, w, t)
  {
    hide D.Gain.Q;
    hide D.Gain.D;
    SquareGrows(v, w);
    D.MulLe(g.D(), v * v, w * w);
  }

  lemma SquareGrows(v: real, w: real)
    requires 0.0 <= v <= w
    ensures v * v <= w * w
  {
    D.MulLe(v, v, w);
    D.MulLe(w, v, w);
  }

  lemma LongStep(n: nat, a: real, clock: E.Clock, h: seq<int>)
    requires n > 0 && clock.prev > 0 && E.Ticks(E.NextClock(n, a, clock, h).window) >= 1000.0
    ensures E.NextClock(n, a, clock, h).prev >= clock.prev + 1000
  {
    hide E.Measured;
    hide E.Ticks;
    hide E.Blend;
    hide E.Elapsed;
    E.RoundNear(E.Ticks(E.NextClock(n, a, clock, h).window));
  }

  /** The same from the timestamps alone: when they follow a true clock up to a jitter, and the level the estimator
      has for it leaves the windows a millisecond, no two records start in the same millisecond. */
  lemma {:induction false} AccurateApart(n: nat, a: real, window: real, hs: seq<seq<int>>, t0: real, w: real,
                                         jitter: real, level: real, i: nat, j: nat)
    requires n > 0 && D.Gain(a, E.MeanIndex(n)).Stable() && jitter >= 0.0
    requires D.Level(D.Gain(a, E.MeanIndex(n)), jitter + 0.5, level)
    requires E.Roomy(D.Gain(a, E.MeanIndex(n)), level, w - 1000.0, t0)
    requires hs != [] && E.Stream(n, t0, w, jitter, hs)
    requires D.V(D.Gain(a, E.MeanIndex(n)), E.Errors(E.FirstClock(n, window, hs[0]), w, t0)) <= level
    requires 0 < i < j <= |hs|
    ensures var clock := E.Clock(window, -1);
            0 < E.Clocks(n, a, clock, hs[..i]).prev &&
            Milli(E.Clocks(n, a, clock, hs[..i]).prev) < Milli(E.Clocks(n, a, clock, hs[..j]).prev)
    decreases j - i
  {
    hide E.MeanIndex;
    hide E.Clocks;
    hide E.NextClock;
    hide E.FirstClock;
    hide E.Timestamps;
    hide E.TrueStart;
    hide D.Gain.Stable;
    hide D.Level;
    hide D.V;
    hide E.Roomy;
    var g, clock := D.Gain(a, E.MeanIndex(n)), E.Clock(window, -1);
    RoomGrows(g, level, w - 1000.0, w, t0);
    assert hs[..i][0] == hs[0] && hs[..i + 1][0] == hs[0];
    E.StartsStayTrue(n, a, window, hs[..i], t0, w, jitter, level);
    E.StartsStayTrue(n, a, window, hs[..i + 1], t0, w, jitter, level);
    var first, next := E.Clocks(n, a, clock, hs[..i]), E.Clocks(n, a, clock, hs[..i + 1]);
    E.RoomyBounds(g, level, w - 1000.0, t0, E.Errors(next, w, E.TrueStart(t0, w, i)));
    E.ClocksNext(n, a, clock, hs, i);
    LongStep(n, a, first, hs[i]);
    assert Milli(first.prev) < Milli(next.prev);
    if i + 1 < j {
      AccurateApart(n, a, window, hs, t0, w, jitter, level, i + 1, j);
    }
  }
}
