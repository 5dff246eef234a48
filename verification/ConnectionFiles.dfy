/** Which files a connection leaves on disk and what is in them, for the program's own loops and estimator. */
module ConnectionFiles {
  import opened Seqs
  import opened NumberTheory
  import opened FileNames
  import opened Store
  import opened StoreRuns
  import opened Retention
  import opened RetainedContents
  import opened Recorder
  import opened RecorderRuns
  import opened RetentionSize
  import E = Estimator
  import D = ErrorDynamics

  // ---------- When files start ----------

  /** The starts of a connection's records are the estimator's over the records' timestamps. */
  lemma {:induction false} RecordStartsAre(c: Config, a: real, clock: E.Clock, readings: seq<DeviceValue>)
    requires c.perRecord > 0
    ensures var hs, starts := Records(c.perRecord, readings), RecordStarts(c, a, clock, readings);
            && |starts| == |hs|
            && forall j :: 0 <= j < |hs| ==> starts[j] == E.Clocks(c.perRecord, a, clock, hs[..j + 1]).prev
    decreases |readings|
  {
    hide Lead;
    hide E.NextClock;
    hide E.Clocks;
    var n := c.perRecord;
    var k := Lead(readings, n);
    if k == n {
      var h, later := Times(readings[..k]), Records(n, readings[k..]);
      var clock' := E.NextClock(n, a, clock, h);
      var hs, starts := Records(n, readings), RecordStarts(c, a, clock, readings);
      assert hs == [h] + later && starts == [clock'.prev] + RecordStarts(c, a, clock', readings[k..]);
      RecordStartsAre(c, a, clock', readings[k..]);
      forall j | 0 <= j < |hs|
        ensures starts[j] == E.Clocks(n, a, clock, hs[..j + 1]).prev
      {
        assert hs[..j + 1] == [h] + later[..j];
        ClocksFromFirst(n, a, clock, h, later[..j]);
        ClocksOfNone(n, a, clock');
      }
    }
  }

  /** Records still missing from the file begun. */
  function Missing(c: Config, written: nat): nat {
    if 0 < written < c.perFile then c.perFile - written else 0
  }

  lemma MissingNext(c: Config, written: nat)
    requires written < c.perFile
    ensures Turn(c, written) < c.perFile
    ensures Missing(c, Turn(c, written)) == if written == 0 then c.perFile - 1 else Missing(c, written) - 1
  {
  }

  /** The files of a run of records start with every record of which the number divides that of a file. */
  lemma {:induction false} FileStartsAt(c: Config, written: nat, starts: seq<int>, k: nat)
    requires written < c.perFile
    ensures var files, i := FileStarts(c, written, starts), Missing(c, written) + k * c.perFile;
            && (k < |files| <==> i < |starts|)
            && (k < |files| ==> files[k] == starts[i])
    decreases |starts|
  {
    hide Turn;
    hide Missing;
    MissingNext(c, written);
    if starts != [] {
      if written > 0 {
        FileStartsAt(c, Turn(c, written), starts[1..], k);
        MissingSome(c, written);
      } else if k > 0 {
        MissingNone(c);
        FileStartsAt(c, Turn(c, written), starts[1..], k - 1);
        Distribute(k - 1, 1, c.perFile);
      } else {
        MissingNone(c);
      }
    } else {
      NotNegative(k, c.perFile);
    }
  }

  lemma MissingSome(c: Config, written: nat)
    requires 0 < written < c.perFile
    ensures Missing(c, written) > 0
  {
  }

  lemma MissingNone(c: Config)
    ensures Missing(c, 0) == 0
  {
  }

  lemma NotNegative(k: nat, m: nat)
    ensures k * m >= 0
  {
  }

  /** The records of the connection start after the epoch, each in a later millisecond than the one before. */
  ghost predicate StartsRise(c: Config, a: real, window: real, readings: seq<DeviceValue>)
    requires c.perRecord > 0
  {
    var n, hs, clock := c.perRecord, Records(c.perRecord, readings), E.Clock(window, -1);
    && ClocksPositive(n, a, clock, hs)
    && forall i, j :: 0 < i < j <= |hs| ==>
         Milli(E.Clocks(n, a, clock, hs[..i]).prev) < Milli(E.Clocks(n, a, clock, hs[..j]).prev)
  }

  /** The windows measured are a millisecond or more and the first record starts after the epoch. */
  ghost predicate GoodConnection(c: Config, a: real, window: real, readings: seq<DeviceValue>, lo: real, hi: real)
    requires c.perRecord > 0
  {
    var n, hs := c.perRecord, Records(c.perRecord, readings);
    && 0.0 <= a <= 1.0 && 0.0 <= lo <= window <= hi && E.Ticks(lo) >= 1000.0
    && E.MeasuredWithin(n, a, E.Clock(window, -1), hs, lo, hi)
    && (hs != [] ==> E.Clocks(n, a, E.Clock(window, -1), hs[..1]).prev > 0)
  }

  lemma GoodRises(c: Config, a: real, window: real, readings: seq<DeviceValue>, lo: real, hi: real)
    requires c.perRecord > 0 && GoodConnection(c, a, window, readings, lo, hi)
    ensures StartsRise(c, a, window, readings)
  {
    hide E.Clocks;
    hide E.MeasuredWithin;
    hide Records;
    hide Milli;
    var n, hs, clock := c.perRecord, Records(c.perRecord, readings), E.Clock(window, -1);
    forall j | 0 < j <= |hs|
      ensures E.Clocks(n, a, clock, hs[..j]).prev > 0
    {
      if j > 1 {
        StartsApart(n, a, clock, hs, lo, hi, 1, j);
        LaterPositive(E.Clocks(n, a, clock, hs[..1]).prev, E.Clocks(n, a, clock, hs[..j]).prev);
      }
    }
    forall i, j | 0 < i < j <= |hs|
      ensures Milli(E.Clocks(n, a, clock, hs[..i]).prev) < Milli(E.Clocks(n, a, clock, hs[..j]).prev)
    {
      StartsApart(n, a, clock, hs, lo, hi, i, j);
    }
  }

  lemma LaterPositive(t: int, u: int)
    requires t > 0 && Milli(t) < Milli(u)
    ensures u > 0
  {
  }

  /** The timestamps follow a true clock of window `w` from `t0` on up to a jitter; the level that the estimator has
      for it holds the first record's errors and leaves every window a millisecond. */
  ghost predicate AccurateConnection(c: Config, a: real, window: real, readings: seq<DeviceValue>,
                                     t0: real, w: real, jitter: real, level: real)
    requires c.perRecord > 0
  {
    var n, hs, g := c.perRecord, Records(c.perRecord, readings), D.Gain(a, E.MeanIndex(c.perRecord));
    && g.Stable() && jitter >= 0.0 && D.Level(g, jitter + 0.5, level) && E.Roomy(g, level, w - 1000.0, t0)
    && E.Stream(n, t0, w, jitter, hs)
    && (hs != [] ==> D.V(g, E.Errors(E.FirstClock(n, window, hs[0]), w, t0)) <= level)
  }

  lemma AccurateRises(c: Config, a: real, window: real, readings: seq<DeviceValue>,
                      t0: real, w: real, jitter: real, level: real)
    requires c.perRecord > 0 && AccurateConnection(c, a, window, readings, t0, w, jitter, level)
    ensures StartsRise(c, a, window, readings)
  {
    hide E.Clocks;
    hide E.MeanIndex;
    hide E.FirstClock;
    hide E.Errors;
    hide E.Timestamps;
    hide E.Roomy;
    hide D.Gain.Stable;
    hide D.Level;
    hide D.V;
    hide Records;
    hide Milli;
    var n, hs, clock := c.perRecord, Records(c.perRecord, readings), E.Clock(window, -1);
    forall j | 0 < j <= |hs|
      ensures E.Clocks(n, a, clock, hs[..j]).prev > 0
    {
      RoomGrows(D.Gain(a, E.MeanIndex(n)), level, w - 1000.0, w, t0);
      assert hs[..j][0] == hs[0];
      E.StartsStayTrue(n, a, window, hs[..j], t0, w, jitter, level);
    }
    forall i, j | 0 < i < j <= |hs|
      ensures Milli(E.Clocks(n, a, clock, hs[..i]).prev) < Milli(E.Clocks(n, a, clock, hs[..j]).prev)
    {
      AccurateApart(n, a, window, hs, t0, w, jitter, level, i, j);
    }
  }

  /** The starts of the files a connection begins, by the estimator. */
  function Begun(c: Config, a: real, window: real, readings: seq<DeviceValue>): seq<int>
    requires c.perRecord > 0
  {
    FileStarts(c, 0, RecordStarts(c, a, E.Clock(window, -1), readings))
  }

  /** File `k` starts with record `k R`. */
  lemma BegunAt(c: Config, a: real, window: real, readings: seq<DeviceValue>, k: nat)
    requires c.perRecord > 0 && c.perFile > 0
    ensures var hs, files := Records(c.perRecord, readings), Begun(c, a, window, readings);
            && (k < |files| <==> k * c.perFile < |hs|)
            && (k < |files| ==>
                  files[k] == E.Clocks(c.perRecord, a, E.Clock(window, -1), hs[..k * c.perFile + 1]).prev)
  {
    hide Records;
    hide RecordStarts;
    hide FileStarts;
    hide E.Clocks;
    var starts := RecordStarts(c, a, E.Clock(window, -1), readings);
    RecordStartsAre(c, a, E.Clock(window, -1), readings);
    FileStartsAt(c, 0, starts, k);
    MissingNone(c);
    NotNegative(k, c.perFile);
  }

  /** The files begin in different milliseconds after the epoch. */
  lemma BegunApart(c: Config, a: real, window: real, readings: seq<DeviceValue>)
    requires c.perRecord > 0 && c.perFile > 0 && StartsRise(c, a, window, readings)
    ensures GoodStarts(Begun(c, a, window, readings)) && LateStarts(Begun(c, a, window, readings))
  {
    hide Records;
    hide Begun;
    hide E.Clocks;
    hide Milli;
    var n, hs, clock := c.perRecord, Records(c.perRecord, readings), E.Clock(window, -1);
    var files := Begun(c, a, window, readings);
    forall k | 0 <= k < |files|
      ensures files[k] > 0
    {
      BegunAt(c, a, window, readings, k);
      NotNegative(k, c.perFile);
      assert E.Clocks(n, a, clock, hs[..k * c.perFile + 1]).prev > 0;
    }
    forall i, j | 0 <= i < j < |files|
      ensures Milli(files[i]) != Milli(files[j])
    {
      BegunAt(c, a, window, readings, i);
      BegunAt(c, a, window, readings, j);
      LaterFile(i, j, c.perFile);
      NotNegative(i, c.perFile);
      var p, q := i * c.perFile + 1, j * c.perFile + 1;
      assert Milli(E.Clocks(n, a, clock, hs[..p]).prev) < Milli(E.Clocks(n, a, clock, hs[..q]).prev);
    }
  }

  lemma LaterFile(i: nat, j: nat, r: nat)
    requires i < j && r > 0
    ensures i * r < j * r
  {
    Distribute(j - i - 1, i + 1, r);
    Distribute(i, 1, r);
    NotNegative(j - i - 1, r);
  }

  // ---------- What is in them ----------

  lemma {:induction false} FileSlice(c: Config, fs: seq<File>, j: nat)
    requires j < |fs| && forall f <- fs :: WholeFile(c, f)
    ensures var m, samples := c.perFile * c.perRecord, Flatten(Flatten(fs));
            && |samples| == |fs| * m && 0 <= j * m <= (j + 1) * m <= |samples|
            && samples[j * m..(j + 1) * m] == Flatten(fs[j])
  {
    hide WholeFile;
    hide Flatten;
    var n, m := |fs| - 1, c.perFile * c.perRecord;
    var front, last := fs[..n], fs[n];
    assert last in fs;
    assert fs == front + [last];
    FileCompleted(front, last);
    WholeLength(c, last);
    FilesLength(c, front);
    Distribute(n, 1, m);
    Distribute(j, 1, m);
    NotNegative(c.perFile, c.perRecord);
    NotNegative(j, m);
    if j < n {
      FileSlice(c, front, j);
      SliceOfFront(Flatten(Flatten(fs)), Flatten(Flatten(front)), Flatten(last), j * m, (j + 1) * m);
    } else {
      SliceOfBack(Flatten(Flatten(fs)), Flatten(Flatten(front)), Flatten(last));
    }
  }

  lemma SliceOfBack(whole: seq<int>, front: seq<int>, rest: seq<int>)
    requires whole == front + rest
    ensures whole[|front|..|front| + |rest|] == rest
  {
  }

  lemma WholeLength(c: Config, f: File)
    requires WholeFile(c, f)
    ensures |Flatten(f)| == c.perFile * c.perRecord
  {
    RecordsLength(f, c.perRecord);
  }

  lemma {:induction false} FilesLength(c: Config, fs: seq<File>)
    requires forall f <- fs :: WholeFile(c, f)
    ensures |Flatten(Flatten(fs))| == |fs| * (c.perFile * c.perRecord)
  {
    hide WholeFile;
    if fs == [] {
      NothingFlat();
    } else {
      var n := |fs| - 1;
      assert fs[n] in fs;
      FilesLength(c, fs[..n]);
      assert fs == fs[..n] + [fs[n]];
      FileCompleted(fs[..n], fs[n]);
      WholeLength(c, fs[n]);
      Distribute(n, 1, c.perFile * c.perRecord);
    }
  }

  lemma NothingFlat()
    ensures |Flatten(Flatten<File>([]))| == 0
  {
    assert Flatten<File>([]) == [];
  }

  lemma SliceOfFront(whole: seq<int>, front: seq<int>, rest: seq<int>, i: nat, j: nat)
    requires whole == front + rest && i <= j <= |front|
    ensures j <= |whole| && whole[i..j] == front[i..j]
  {
  }

  // ---------- Main result ----------

  /** The samples of file `j`: it is on disk under the time the estimator gave its first record. */
  ghost predicate OnDisk(c: Config, s: State, starts: seq<int>, values: seq<int>, j: nat)
    requires j < |starts|
  {
    var m := c.perFile * c.perRecord;
    && PathOf(starts[j]) in s.files && 0 <= j * m <= (j + 1) * m <= |values|
    && Flatten(s.files[PathOf(starts[j])]) == values[j * m..(j + 1) * m]
  }

  /** The files on disk are those begun and kept, but for the one still open, and each holds its share of the
      values delivered. */
  ghost predicate Leaves(c: Config, s: State, starts: seq<int>, values: seq<int>)
    requires c.ring > 0
  {
    && s.phase.Reading? && |s.completed| == |starts| - Open(s)
    && FilesAre(s.files.Keys, starts, |starts| - PeriodOf(c), |starts| - Open(s))
    && forall j :: 0 <= j < |s.completed| && j < |starts| && Kept(starts, |starts| - PeriodOf(c), j) ==>
         OnDisk(c, s, starts, values, j)
  }

  /** The values a connection delivers, up to the first read that fails. */
  function Delivered(readings: seq<DeviceValue>): seq<int> {
    Values(readings[..Lead(readings, |readings|)])
  }

  lemma DeliveredStops(readings: seq<DeviceValue>)
    ensures UpToFailure(readings, Delivered(readings))
  {
    hide Lead;
    LeadIs(readings, |readings|);
  }

  /** One connection on an empty store, whatever the start times, so long as files start in different milliseconds:
      on disk are the last M / gcd(M, R) of the files begun - the open one counted - and those older ones that began
      at or before the epoch, each with exactly its share of the values delivered. */
  lemma FilesLeft(c: Config, a: real, window: real, s0: nat, readings: seq<DeviceValue>)
    requires Good(c) && s0 < c.ring && GoodStarts(Begun(c, a, window, readings))
    ensures UpToFailure(readings, Delivered(readings))
    ensures Leaves(c, Collected(c, a, Begin(c, s0), E.Clock(window, -1), readings).0, Begun(c, a, window, readings),
                   Delivered(readings))
  {
    hide Run;
    hide Starts;
    hide Collected;
    hide RecordStarts;
    hide FileStarts;
    hide PositiveStarts;
    hide GoodStarts;
    hide Inv;
    hide Counts;
    hide FilesAre;
    hide RingHolds;
    hide PeriodOf;
    hide PathOf;
    hide OnDisk;
    hide Kept;
    hide Lead;
    hide Values;
    hide UpToFailure;
    var clock, b := E.Clock(window, -1), Begin(c, s0);
    var events := CollectedIsRun(c, a, b, clock, readings);
    var s := Collected(c, a, b, clock, readings).0;
    var starts := Begun(c, a, window, readings);
    var records := RunFromEmpty(c, s0, events, s, starts);
    KeptAsCompleted(c, s0, events, s, starts);
    CollectedTakes(c, a, b, clock, readings);
    DeliveredStops(readings);
    assert [] + Delivered(readings) == Delivered(readings);
    forall j | 0 <= j < |s.completed| && j < |starts| && Kept(starts, |starts| - PeriodOf(c), j)
      ensures OnDisk(c, s, starts, Delivered(readings), j)
    {
      CompletedOnDisk(c, s, starts, Delivered(readings), j);
    }
  }

  /** When measured windows are a millisecond or more and the first start is after the epoch, all files begun are
      late and on disk are exactly the last M / gcd(M, R) of them. */
  lemma FilesOfConnection(c: Config, a: real, window: real, s0: nat, readings: seq<DeviceValue>, lo: real, hi: real)
    requires Good(c) && s0 < c.ring && GoodConnection(c, a, window, readings, lo, hi)
    ensures LateStarts(Begun(c, a, window, readings))
    ensures Leaves(c, Collected(c, a, Begin(c, s0), E.Clock(window, -1), readings).0, Begun(c, a, window, readings),
                   Delivered(readings))
  {
    hide GoodConnection;
    hide StartsRise;
    hide Begun;
    hide GoodStarts;
    hide LateStarts;
    hide Leaves;
    GoodRises(c, a, window, readings, lo, hi);
    BegunApart(c, a, window, readings);
    FilesLeft(c, a, window, s0, readings);
  }

  /** The same for a connection whose timestamps follow a true clock up to a jitter. */
  lemma FilesOfAccurateConnection(c: Config, a: real, window: real, s0: nat, readings: seq<DeviceValue>,
                                  t0: real, w: real, jitter: real, level: real)
    requires Good(c) && s0 < c.ring && AccurateConnection(c, a, window, readings, t0, w, jitter, level)
    ensures LateStarts(Begun(c, a, window, readings))
    ensures Leaves(c, Collected(c, a, Begin(c, s0), E.Clock(window, -1), readings).0, Begun(c, a, window, readings),
                   Delivered(readings))
  {
    hide AccurateConnection;
    hide StartsRise;
    hide Begun;
    hide GoodStarts;
    hide LateStarts;
    hide Leaves;
    AccurateRises(c, a, window, readings, t0, w, jitter, level);
    BegunApart(c, a, window, readings);
    FilesLeft(c, a, window, s0, readings);
  }

  lemma CompletedOnDisk(c: Config, s: State, starts: seq<int>, values: seq<int>, j: nat)
    requires Inv(false, c, s) && s.phase.Reading? && s.taken == values && j < |s.completed| && j < |starts|
    requires PathOf(starts[j]) in s.files && s.files[PathOf(starts[j])] == s.completed[j]
    ensures OnDisk(c, s, starts, values, j)
  {
    hide PathOf;
    hide DiskOk;
    hide DateDir;
    hide WholeFile;
    hide WholeRecords;
    hide Flatten;
    var m := c.perFile * c.perRecord;
    FileSlice(c, s.completed, j);
    var front := Flatten(Flatten(s.completed));
    Assoc(front, Flatten(Pending(s)), s.buf);
    SliceOfFront(s.taken, front, Flatten(Pending(s)) + s.buf, j * m, (j + 1) * m);
  }
}
