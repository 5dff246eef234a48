/** The program's own loops over the store (`collect_and_write`, `main`): a record is read sample by sample,
    its start estimated, and the record written; the methods are proved against the statements of `Store`. */
module Recorder {
  import opened Options
  import opened Seqs
  import opened DateTree
  import opened FileNames
  import opened HpTime
  import opened StateDump
  import opened Store
  import E = Estimator
  import L = LineReader

  const MIN_DATA: int := -32768
  const MAX_DATA: int := 32767

  const SAMP_PER_SEC_20: real := 20.032
  const SAMP_PER_SEC_40: real := 39.860
  const SAMP_PER_SEC_80: real := 79.719

  /** What `read_next_value` returns and when. */
  datatype DeviceValue = DeviceValue(value: int, time: int)

  /** A read error is the least of the long integers, so it is below the range too. */
  predicate InRange(r: DeviceValue) {
    MIN_DATA <= r.value <= MAX_DATA
  }

  // ---------- What the loops do ----------

  /** All statements that follow a completed record. */
  function Settle(c: Config, s: State): (r: State)
    requires s.index < |s.list| == c.ring
    ensures r.index < |r.list| == c.ring
    ensures Rank(r.phase) == 0
    decreases Rank(s.phase)
  {
    if Rank(s.phase) == 0 then s else Settle(c, Statement(c, s))
  }

  /** Readings in range at the front, at most `most`. */
  function Lead(readings: seq<DeviceValue>, most: nat): (k: nat)
    ensures k <= most && k <= |readings|
    decreases most
  {
    if most > 0 && readings != [] && InRange(readings[0]) then 1 + Lead(readings[1..], most - 1) else 0
  }

  function Values(readings: seq<DeviceValue>): seq<int> {
    seq(|readings|, i requires 0 <= i < |readings| => readings[i].value)
  }

  function Times(readings: seq<DeviceValue>): seq<int> {
    seq(|readings|, i requires 0 <= i < |readings| => readings[i].time)
  }

  function Sampled(s: State, values: seq<int>): State {
    s.(buf := s.buf + values, taken := s.taken + values)
  }

  /** The state after a whole record of these readings, with the clock it gives. */
  function Recorded(c: Config, a: real, s: State, clock: E.Clock, record: seq<DeviceValue>): (r: (State, E.Clock))
    requires s.index < |s.list| == c.ring && c.perRecord > 0
    ensures r.0.index < |r.0.list| == c.ring
  {
    var clock' := E.NextClock(c.perRecord, a, clock, Times(record));
    (Settle(c, Next(c, Sampled(s, Values(record)), RecordDone(clock'.prev))), clock')
  }

  /** Records are completed one after another, up to the first reading out of range. */
  function Collected(c: Config, a: real, s: State, clock: E.Clock, readings: seq<DeviceValue>): (r: (State, E.Clock))
    requires s.index < |s.list| == c.ring && c.perRecord > 0
    ensures r.0.index < |r.0.list| == c.ring
    decreases |readings|
  {
    var k := Lead(readings, c.perRecord);
    if k < c.perRecord then (Sampled(s, Values(readings[..k])), clock)
    else
      var (s', clock') := Recorded(c, a, s, clock, readings[..k]);
      Collected(c, a, s', clock', readings[k..])
  }

  /** One connection after another; each starts with nothing read and the nominal window. */
  function Served(c: Config, a: real, window: real, s: State, connections: seq<seq<DeviceValue>>): (r: State)
    requires s.index < |s.list| == c.ring && c.perRecord > 0
    ensures r.index < |r.list| == c.ring
    decreases |connections|
  {
    if connections == [] then s
    else
      var s' := Collected(c, a, Next(c, s, DeviceError), E.Clock(window, -1), connections[0]).0;
      Served(c, a, window, s', connections[1..])
  }

  /** The program as it starts on a disk: index and ring from the state file, if there is one. */
  function Started(c: Config, file: Option<string>, tmp: File, files: map<Path, File>, tree: set<Dir>): (r: State)
    requires c.ring > 0
    ensures r.index < |r.list| == c.ring
  {
    var (index, list) := Restore(file, c.ring);
    State(Reading, index, list, 0, 0, 0, tmp, [], files, tree, [], [])
  }

  /** What is taken of the readings: their values in order, up to the first that is not a 16-bit number. A read error
      is none. */
  ghost predicate UpToFailure(readings: seq<DeviceValue>, values: seq<int>) {
    && |values| <= |readings|
    && (forall i :: 0 <= i < |values| ==> values[i] == readings[i].value && -32768 <= values[i] <= 32767)
    && (|values| < |readings| ==> readings[|values|].value < -32768 || readings[|values|].value > 32767)
  }

  /** The `k` readings in front, at most `most`, are 16-bit numbers, and the next one is not. */
  ghost predicate StopsAfter(readings: seq<DeviceValue>, k: nat, most: nat)
    requires k <= |readings|
  {
    && (forall i :: 0 <= i < k ==> -32768 <= readings[i].value <= 32767)
    && (k < most && k < |readings| ==> readings[k].value < -32768 || readings[k].value > 32767)
  }

  /** The first window, by the nominal rate: the device's own rate differs from it a little. */
  function NominalWindow(rate: nat, perRecord: nat): real {
    (if rate == 80 then 1.0 / 79.719 else if rate == 40 then 1.0 / 39.860 else 1.0 / 20.032) * perRecord as real
  }

  // ---------- The code ----------

  /** The program's globals, the locals of `collect_and_write` that live from record to record, and the disk. */
  class Logger {
    const c: Config
    const filetimeList: array<int>
    var fileIndex: nat
    var numRecordsWritten: nat
    var target: int
    var idata: seq<int>
    var tmp: File
    var files: map<Path, File>
    var tree: set<Dir>
    ghost var slot: nat
    ghost var taken: seq<int>
    ghost var completed: seq<File>

    ghost predicate Valid()
      reads this, filetimeList
    {
      Good(c) && fileIndex < filetimeList.Length == c.ring
    }

    ghost function View(phase: Phase): State
      reads this, filetimeList
    {
      State(phase, fileIndex, filetimeList[..], numRecordsWritten, slot, target, tmp, idata, files, tree, taken,
            completed)
    }

    /** Starts on the disk as it is found and restores index and ring from the state file, if there is one. */
    constructor (c: Config, file: Option<string>, tmp: File, files: map<Path, File>, tree: set<Dir>)
      requires Good(c)
      ensures Valid() && this.c == c && fresh(filetimeList)
      ensures View(Reading) == Started(c, file, tmp, files, tree)
    {
      hide Restore;
      hide Dump;
      this.c := c;
      filetimeList := new int[c.ring];
      fileIndex, numRecordsWritten, target, idata, slot := 0, 0, 0, [], 0;
      this.tmp, this.files, this.tree := tmp, files, tree;
      taken, completed := [], [];
      new;
      fileIndex := LoadState(file, filetimeList);
    }

    /** Makes way for a new file: removes the slot's old one, claims the slot and makes the directory. */
    method StartFile(t: int)
      requires Valid()
      modifies this`target, this`files, this`tree, this`slot, filetimeList
      ensures Valid()
      ensures View(Writing(true)) == Statement(c, Statement(c, Statement(c, old(View(Evicting(t))))))
    {
      hide PathOf;
      hide DateDir;
      hide Prune;
      hide Create;
      var previous := filetimeList[fileIndex];
      if previous > 0 {
        files := files - {PathOf(previous)};
        tree := RemoveDirs(tree, files.Keys, DateDir(previous));
      }
      ghost var before := filetimeList[..];
      filetimeList[fileIndex] := t;
      assert filetimeList[..] == before[fileIndex := t];
      slot, target := fileIndex, t;
      tree := MakeDirs(tree, DateDir(t));
    }

    /** Appends the record to the temporary file, or starts that anew. */
    method WriteMseed(isNewFile: bool)
      requires Valid()
      modifies this`tmp, this`idata, this`numRecordsWritten
      ensures Valid()
      ensures Statement(c, old(View(Writing(isNewFile)))) ==
              View(if numRecordsWritten >= c.perFile then Moving else Advancing)
    {
      tmp := (if isNewFile then [] else tmp) + [idata];
      idata := [];
      numRecordsWritten := numRecordsWritten + 1;
    }

    /** Renames the temporary file; this fails if the directory is not there. */
    method MoveFile()
      requires Valid()
      modifies this`tmp, this`files, this`numRecordsWritten, this`completed
      ensures Valid()
      ensures View(Advancing) == Statement(c, old(View(Moving)))
    {
      hide PathOf;
      hide DateDir;
      if DateDir(target) in tree {
        files := files[PathOf(target) := tmp];
        completed := completed + [tmp];
        tmp := [];
      }
      numRecordsWritten := 0;
    }

    /** Everything from a completed record up to the next read. */
    method WriteRecord(t: int)
      requires Valid()
      modifies this, filetimeList
      ensures Valid()
      ensures View(Reading) == Settle(c, Next(c, old(View(Reading)), RecordDone(t)))
    {
      hide Statement;
      hide Settle;
      hide PathOf;
      hide DateDir;
      var isNewFile := false;
      if numRecordsWritten == 0 {
        SettleThrice(c, View(Evicting(t)));
        StartFile(t);
        isNewFile := true;
      }
      SettleOnce(c, View(Writing(isNewFile)));
      WriteMseed(isNewFile);
      if numRecordsWritten >= c.perFile {
        SettleOnce(c, View(Moving));
        MoveFile();
      }
      Advanced(c, View(Advancing));
      fileIndex := (fileIndex + 1) % c.ring;
    }

    /** Reads one record, up to the first value out of range, and measures where it starts. */
    method ReadRecord(window: real, readings: seq<DeviceValue>) returns (nsamp: nat, measured: real)
      requires Valid()
      modifies this`idata, this`taken
      ensures Valid() && nsamp == Lead(readings, c.perRecord)
      ensures nsamp <= |readings| && StopsAfter(readings, nsamp, c.perRecord)
      ensures View(Reading) == Sampled(old(View(Reading)), Values(readings[..nsamp]))
      ensures nsamp == c.perRecord ==> measured == E.Measured(c.perRecord, window, Times(readings[..nsamp]))
    {
      hide E.Offset;
      hide E.StartSum;
      hide Lead;
      hide Values;
      hide Times;
      hide StopsAfter;
      RecordBegins(readings, c.perRecord, c.perRecord, window);
      LeadIs(readings, c.perRecord);
      nsamp, measured := 0, 0.0;
      var startCurrent, count := 0, 0;
      ghost var s := View(Reading);
      while nsamp < c.perRecord
        invariant Valid() && nsamp <= |readings| && nsamp <= c.perRecord
        invariant Lead(readings, c.perRecord) == nsamp + Lead(readings[nsamp..], c.perRecord - nsamp)
        invariant View(Reading) == Sampled(s, Values(readings[..nsamp]))
        invariant startCurrent == E.StartSum(c.perRecord, window, Times(readings[..nsamp]))
        invariant count == if nsamp <= c.perRecord / 2 then 0 else nsamp - c.perRecord / 2
        decreases c.perRecord - nsamp
      {
        LeadNext(readings, c.perRecord, nsamp);
        if nsamp == |readings| {
          return;
        }
        var ivalue := readings[nsamp].value;
        if ivalue == L.READ_ERROR || ivalue < MIN_DATA || ivalue > MAX_DATA {
          return;
        }
        var reading := readings[nsamp];
        ReadingNext(readings, nsamp);
        StartSumNext(c.perRecord, window, Times(readings[..nsamp]), reading.time);
        idata, taken := idata + [reading.value], taken + [reading.value];
        if nsamp >= c.perRecord / 2 {
          startCurrent := startCurrent + (reading.time - E.Offset(c.perRecord, window, nsamp));
          count := count + 1;
        }
        nsamp := nsamp + 1;
      }
      measured := startCurrent as real / count as real;
    }

    /** A new connection starts with no record and no file begun. */
    method Reset()
      requires Valid()
      modifies this`numRecordsWritten, this`idata, this`taken, this`completed
      ensures Valid() && View(Reading) == Next(c, old(View(Reading)), DeviceError) && taken == []
    {
      numRecordsWritten, idata, taken, completed := 0, [], [], [];
    }

    /** Collects records and writes them until the device fails; the clock starts from the nominal window. Taken are
        the values up to the first failure. */
    method CollectAndWrite(rate: nat, readings: seq<DeviceValue>) returns (result: int)
      requires Valid() && rate > 0
      modifies this, filetimeList
      ensures Valid() && result == -1
      ensures View(Reading) ==
              Collected(c, E.Decay(rate), Next(c, old(View(Reading)), DeviceError),
                        E.Clock(NominalWindow(rate, c.perRecord), -1), readings).0
      ensures UpToFailure(readings, taken)
    {
      var decayMinutes := 1.0;
      var a := 1.0 / (decayMinutes * 60.0 * rate as real);
      var dtEst := if rate == 80 then 1.0 / SAMP_PER_SEC_80
                   else if rate == 40 then 1.0 / SAMP_PER_SEC_40 else 1.0 / SAMP_PER_SEC_20;
      var window := dtEst * c.perRecord as real;
      assert a == E.Decay(rate) && window == NominalWindow(rate, c.perRecord);
      CollectRecords(a, window, readings);
      return -1;
    }

    /** The loop over the records of a connection. */
    method CollectRecords(a: real, window: real, readings: seq<DeviceValue>)
      requires Valid()
      modifies this, filetimeList
      ensures Valid()
      ensures View(Reading) ==
              Collected(c, a, Next(c, old(View(Reading)), DeviceError), E.Clock(window, -1), readings).0
      ensures UpToFailure(readings, taken)
    {
      hide UpToFailure;
      hide Next;
      hide Sampled;
      hide E.Measured;
      var rest, windowEst, prevStart := readings, window, -1;
      Reset();
      CollectedStops(c, a, View(Reading), E.Clock(window, -1), readings);
      ghost var all := Collected(c, a, View(Reading), E.Clock(window, -1), readings);
      hide Settle;
      hide Lead;
      hide Collected;
      hide E.NextClock;
      hide E.Filter;
      hide Values;
      hide Times;
      while true
        invariant Valid()
        invariant Collected(c, a, View(Reading), E.Clock(windowEst, prevStart), rest) == all
        decreases |rest|
      {
        CollectedNext(c, a, View(Reading), E.Clock(windowEst, prevStart), rest);
        ghost var clock := E.Clock(windowEst, prevStart);
        var nsamp, measured := ReadRecord(windowEst, rest);
        if nsamp < c.perRecord {
          return;
        }
        NextClockIs(c.perRecord, a, clock, Times(rest[..nsamp]));
        windowEst, prevStart := FilterStart(a, windowEst, prevStart, measured);
        WriteRecord(prevStart);
        rest := rest[nsamp..];
      }
    }

    /** The loop of `main`: connect, collect until the device fails, connect again. */
    method Serve(rate: nat, connections: seq<seq<DeviceValue>>)
      requires Valid() && rate > 0
      modifies this, filetimeList
      ensures Valid()
      ensures View(Reading) ==
              Served(c, E.Decay(rate), NominalWindow(rate, c.perRecord), old(View(Reading)), connections)
    {
      hide Collected;
      hide Next;
      hide E.Decay;
      hide NominalWindow;
      var i := 0;
      ghost var a, window := E.Decay(rate), NominalWindow(rate, c.perRecord);
      ghost var all := Served(c, a, window, View(Reading), connections);
      while i < |connections|
        invariant 0 <= i <= |connections| && Valid()
        invariant Served(c, a, window, View(Reading), connections[i..]) == all
      {
        var result := CollectAndWrite(rate, connections[i]);
        assert connections[i..][1..] == connections[i + 1..];
        i := i + 1;
      }
    }

    /** The state saved on a termination signal. */
    method Terminate() returns (text: string)
      requires Valid()
      ensures Stopped(text) == Next(c, View(Reading), Signal).phase
    {
      hide Dump;
      text := SaveState(fileIndex, filetimeList);
    }
  }

  /** The low-pass filter on the window, and the start that follows from it. */
  method FilterStart(a: real, windowEst: real, prevStart: int, measured: real) returns (window: real, start: int)
    ensures E.Clock(window, start) == E.Filter(a, E.Clock(windowEst, prevStart), measured)
  {
    var current := windowEst;
    if prevStart > 0 {
      current := (measured - prevStart as real) / HPTMODULUS as real;
    }
    window := windowEst + a * (current - windowEst);
    if prevStart > 0 {
      start := prevStart + Trunc(0.5 + window * HPTMODULUS as real);
    } else {
      start := Trunc(measured);
    }
  }

  lemma NextClockIs(n: nat, a: real, clock: E.Clock, h: seq<int>)
    requires n > 0
    ensures E.NextClock(n, a, clock, h) == E.Filter(a, clock, E.Measured(n, clock.window, h))
  {
  }

  lemma CollectedNext(c: Config, a: real, s: State, clock: E.Clock, readings: seq<DeviceValue>)
    requires s.index < |s.list| == c.ring && c.perRecord > 0
    ensures var k := Lead(readings, c.perRecord);
            Collected(c, a, s, clock, readings) ==
            if k < c.perRecord then (Sampled(s, Values(readings[..k])), clock)
            else
              var clock' := E.NextClock(c.perRecord, a, clock, Times(readings[..k]));
              Collected(c, a, Settle(c, Next(c, Sampled(s, Values(readings[..k])), RecordDone(clock'.prev))), clock',
                        readings[k..])
  {
    hide Settle;
    hide Next;
    hide Lead;
    hide E.NextClock;
  }

  lemma RecordBegins(readings: seq<DeviceValue>, most: nat, n: nat, window: real)
    requires n > 0
    ensures readings[0..] == readings && Values(readings[..0]) == [] && E.StartSum(n, window, Times(readings[..0])) == 0
  {
  }

  lemma LeadNext(readings: seq<DeviceValue>, most: nat, k: nat)
    requires k < most && k <= |readings| && Lead(readings, most) == k + Lead(readings[k..], most - k)
    ensures Lead(readings, most) ==
            if k == |readings| || !InRange(readings[k]) then k else k + 1 + Lead(readings[k + 1..], most - (k + 1))
  {
  }

  lemma ReadingNext(readings: seq<DeviceValue>, k: nat)
    requires k < |readings|
    ensures Values(readings[..k + 1]) == Values(readings[..k]) + [readings[k].value]
    ensures Times(readings[..k + 1]) == Times(readings[..k]) + [readings[k].time]
    ensures |Times(readings[..k])| == k
  {
  }

  lemma StartSumNext(n: nat, window: real, h: seq<int>, t: int)
    requires n > 0
    ensures E.StartSum(n, window, h + [t]) ==
            if |h| < n / 2 then 0 else E.StartSum(n, window, h) + t - E.Offset(n, window, |h|)
    ensures |h| < n / 2 ==> E.StartSum(n, window, h) == 0
  {
  }

  lemma SettleOnce(c: Config, s: State)
    requires s.index < |s.list| == c.ring && Rank(s.phase) > 0
    ensures Settle(c, s) == Settle(c, Statement(c, s))
  {
  }

  lemma SettleThrice(c: Config, s: State)
    requires s.index < |s.list| == c.ring && s.phase.Evicting?
    ensures Settle(c, s) == Settle(c, Statement(c, Statement(c, Statement(c, s))))
  {
    hide Settle;
    var s1 := Evicted(c, s);
    var s2 := Statement(c, s1);
    SettleOnce(c, s);
    SettleOnce(c, s1);
    SettleOnce(c, s2);
  }

  lemma Evicted(c: Config, s: State) returns (s1: State)
    requires s.index < |s.list| == c.ring && s.phase.Evicting?
    ensures s1 == Statement(c, s) && s1.phase.Claiming?
  {
    hide Evict;
    s1 := Statement(c, s);
  }

  lemma Advanced(c: Config, s: State)
    requires s.index < |s.list| == c.ring && s.phase.Advancing?
    ensures Settle(c, s) == s.(index := (s.index + 1) % c.ring, phase := Reading)
  {
  }

  // ---------- What a connection takes ----------

  /** The readings in front are 16-bit numbers, and the one after them is not, if it is reached. */
  lemma {:induction false} LeadIs(readings: seq<DeviceValue>, most: nat)
    ensures StopsAfter(readings, Lead(readings, most), most)
    decreases most
  {
    if most > 0 && readings != [] && InRange(readings[0]) {
      LeadIs(readings[1..], most - 1);
    }
  }

  lemma {:induction false} LeadSplit(readings: seq<DeviceValue>, most: nat)
    ensures var k := Lead(readings, most);
            Lead(readings, |readings|) == if k < most then k else k + Lead(readings[k..], |readings[k..]|)
    decreases |readings|
  {
    if most > 0 && readings != [] && InRange(readings[0]) {
      LeadSplit(readings[1..], most - 1);
      var k := Lead(readings[1..], most - 1);
      assert readings[1..][k..] == readings[k + 1..];
    } else {
      assert readings[0..] == readings;
    }
  }

  lemma ValuesSplit(readings: seq<DeviceValue>, k: nat, m: nat)
    requires k + m <= |readings|
    ensures Values(readings[..k + m]) == Values(readings[..k]) + Values(readings[k..][..m])
  {
  }

  lemma {:induction false} SettleTakes(c: Config, s: State)
    requires s.index < |s.list| == c.ring
    ensures Settle(c, s).taken == s.taken
    decreases Rank(s.phase)
  {
    if Rank(s.phase) > 0 {
      StatementTakes(c, s);
      hide Statement;
      SettleTakes(c, Statement(c, s));
    }
  }

  lemma StatementTakes(c: Config, s: State)
    requires s.index < |s.list| == c.ring
    ensures Statement(c, s).taken == s.taken
  {
    hide Evict;
    hide PathOf;
    hide DateDir;
    hide Create;
    hide After;
  }

  lemma {:induction false} CollectedTakes(c: Config, a: real, s: State, clock: E.Clock, readings: seq<DeviceValue>)
    requires s.index < |s.list| == c.ring && c.perRecord > 0
    ensures Collected(c, a, s, clock, readings).0.taken == s.taken + Values(readings[..Lead(readings, |readings|)])
    decreases |readings|
  {
    hide Settle;
    hide Lead;
    hide Values;
    hide E.NextClock;
    var k := Lead(readings, c.perRecord);
    CollectedNext(c, a, s, clock, readings);
    hide Collected;
    LeadSplit(readings, c.perRecord);
    if k == c.perRecord {
      var clock' := E.NextClock(c.perRecord, a, clock, Times(readings[..k]));
      var s1 := Next(c, Sampled(s, Values(readings[..k])), RecordDone(clock'.prev));
      SettleTakes(c, s1);
      CollectedTakes(c, a, Settle(c, s1), clock', readings[k..]);
      ValuesSplit(readings, k, Lead(readings[k..], |readings[k..]|));
      Assoc(s.taken, Values(readings[..k]), Values(readings[k..][..Lead(readings[k..], |readings[k..]|)]));
    }
  }

  /** A connection takes the values up to the first failure; before it, nothing was taken. */
  lemma CollectedStops(c: Config, a: real, s: State, clock: E.Clock, readings: seq<DeviceValue>)
    requires s.index < |s.list| == c.ring && c.perRecord > 0 && s.taken == []
    ensures UpToFailure(readings, Collected(c, a, s, clock, readings).0.taken)
  {
    hide Collected;
    hide Lead;
    CollectedTakes(c, a, s, clock, readings);
    var k := Lead(readings, |readings|);
    assert [] + Values(readings[..k]) == Values(readings[..k]);
    LeadIs(readings, |readings|);
  }
}
