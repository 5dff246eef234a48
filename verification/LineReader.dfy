/** The serial line reader `read_next_value` of minisepdevice.c. */
module LineReader {
  import opened Options
  import opened Numbers

  const MAX_LINE_DATA: nat := 32
  const SLEEP: int := 10000      // microseconds slept after a poll that gave nothing
  const READ_ERROR: int := LONG_MIN

  /** What one poll of the port gives: nothing ready, a byte, end of file, or an error from `read`. */
  datatype Poll = NotReady | Got(c: char) | Closed | Failed

  predicate IsEol(c: char) {
    c == '\r' || c == '\n'
  }

  // ---------- The reader without its clock ----------

  /** A line taken from the polls: its text, how many polls it took and how many of them slept. */
  datatype Taken = Taken(text: string, polls: nat, idle: nat)

  /** The poll adds a byte to the line read so far. Once a line has begun, an error from `read`
      counts as a byte, and the byte is whatever the last one was. */
  predicate Adds(p: Poll, text: string) {
    || (p.Got? && !IsEol(p.c))
    || (p.Failed? && text != "")
  }

  function Added(p: Poll, text: string): char
    requires Adds(p, text)
  {
    if p.Got? then p.c else text[|text| - 1]
  }

  function Extended(p: Poll, text: string): string {
    if Adds(p, text) then text + [Added(p, text)] else text
  }

  /** The poll makes the reader sleep. */
  predicate Sleeps(p: Poll, text: string) {
    p.NotReady? || p.Closed? || (p.Failed? && text == "")
  }

  /** The line that the polls complete, given what was read of it so far. */
  function Take(polls: seq<Poll>, text: string): (r: Option<Taken>)
    ensures r.Some? ==> r.value.polls <= |polls| && 0 < |r.value.text|
    decreases |polls|
  {
    if |text| >= MAX_LINE_DATA then Some(Taken(text, 0, 0))
    else if polls == [] then None
    else
      var p := polls[0];
      if p.Got? && IsEol(p.c) && text != "" then Some(Taken(text, 1, 0))
      else
        var more := Take(polls[1..], Extended(p, text));
        if more == None then None
        else Some(Taken(more.value.text, more.value.polls + 1,
                        more.value.idle + if Sleeps(p, text) then 1 else 0))
  }

  /** The polls left when a call ends: after its line, or once it has slept `sleeps` times if that is first. */
  function Left(polls: seq<Poll>, text: string, sleeps: nat): seq<Poll>
    decreases |polls|
  {
    if |text| >= MAX_LINE_DATA || sleeps == 0 || polls == [] then polls
    else
      var p := polls[0];
      if p.Got? && IsEol(p.c) && text != "" then polls[1..]
      else Left(polls[1..], Extended(p, text), sleeps - if Sleeps(p, text) then 1 else 0)
  }

  /** How many sleeps make up the timeout. */
  function Budget(timeout: int): nat {
    if timeout <= 0 then 0 else (timeout + SLEEP - 1) / SLEEP
  }

  // ---------- The reader ----------

  class SerialPort {
    var pending: seq<Poll>  // what the coming polls give; after the last of them nothing is ever ready
    const lineData: array<char>
    var nLineData: nat

    ghost predicate Valid()
      reads this
    {
      lineData.Length == MAX_LINE_DATA + 1
    }

    constructor (pending: seq<Poll>)
      ensures Valid() && this.pending == pending && fresh(lineData)
    {
      this.pending := pending;
      lineData := new char[MAX_LINE_DATA + 1];
      nLineData := 0;
    }

    method NextPoll() returns (p: Poll)
      modifies this`pending
      ensures p == if old(pending) == [] then NotReady else old(pending)[0]
      ensures pending == if old(pending) == [] then [] else old(pending)[1..]
    {
      if pending == [] {
        return NotReady;
      }
      p := pending[0];
      pending := pending[1..];
    }

    /** Reads one line and gives its value. The call ends in a timeout exactly when the polls never
        complete a line or make the reader sleep `timeout` microseconds before they do. */
    method ReadNextValue(timeout: int) returns (value: int, timedOut: bool)
      requires Valid()
      modifies this, lineData
      ensures Valid()
      ensures var line := Take(old(pending), "");
              && (timedOut <==> line == None || 10000 * line.value.idle >= timeout)
              && value == (if timedOut then -0x8000_0000_0000_0000 else Atol(line.value.text))
              && (!timedOut ==> pending == old(pending)[line.value.polls..])
      ensures pending == Left(old(pending), "", Budget(timeout))
    {
      hide Take;
      hide Follows;
      hide Atol;
      hide Left;
      ghost var all := pending;
      nLineData := 0;
      var totalSleep, buf;
      ghost var idle, used;
      totalSleep, buf, used, idle := SkipLineEnds(timeout, all);
      Finished(all, pending, lineData[..nLineData], used, idle);
      Stopped(all, pending, lineData[..nLineData], Budget(timeout), idle);
      if totalSleep >= timeout {
        return READ_ERROR, true;
      }
      totalSleep, used, idle := ReadLine(timeout, all, totalSleep, buf, used, idle);
      ghost var line := lineData[..nLineData];
      lineData[nLineData] := '\0';
      assert lineData[..nLineData] == line;
      if totalSleep >= timeout {
        return READ_ERROR, true;
      }
      return Atol(lineData[..nLineData]), false;
    }

    /** The first polling loop: skips leading line ends and reads the first byte of the line. */
    method SkipLineEnds(timeout: int, ghost all: seq<Poll>)
      returns (totalSleep: int, buf: char, ghost used: nat, ghost idle: nat)
      requires Valid() && nLineData == 0 && pending == all
      modifies this, lineData
      ensures Valid() && nLineData <= 1
      ensures totalSleep == SLEEP * idle && Follows(all, pending, lineData[..nLineData], used, idle)
      ensures Leaves(all, pending, lineData[..nLineData], Budget(timeout), idle)
      ensures totalSleep < timeout ==> nLineData == 1 && lineData[0] == buf && !IsEol(buf)
    {
      hide Take;
      hide Follows;
      hide Left;
      totalSleep, buf, used, idle := 0, '\0', 0, 0;
      Start(all);
      while totalSleep < timeout && nLineData < MAX_LINE_DATA
        invariant Valid() && nLineData == 0
        invariant totalSleep == SLEEP * idle && Follows(all, pending, "", used, idle)
        invariant Leaves(all, pending, "", Budget(timeout), idle)
        decreases timeout - totalSleep, |pending|
      {
        Polled(all, pending, "", used, idle);
        LeftStep(pending, "", Budget(timeout) - idle);
        used := if pending == [] then used else used + 1;
        var p := NextPoll();
        if p.Got? {
          buf := p.c;
          if IsEol(buf) {
            continue;
          }
          lineData[nLineData] := buf;
          nLineData := nLineData + 1;
          assert lineData[..nLineData] == "" + [buf];
          break;
        } else {
          totalSleep := totalSleep + SLEEP;
          idle := idle + 1;
        }
      }
      assert nLineData == 0 ==> lineData[..nLineData] == "";
    }

    /** The second polling loop: reads the line to its end or until the buffer is full. */
    method ReadLine(timeout: int, ghost all: seq<Poll>, slept: int, first: char, ghost used0: nat, ghost idle0: nat)
      returns (totalSleep: int, ghost used: nat, ghost idle: nat)
      requires Valid() && nLineData == 1 && lineData[0] == first && !IsEol(first)
      requires slept == SLEEP * idle0 && Follows(all, pending, lineData[..nLineData], used0, idle0)
      requires Leaves(all, pending, lineData[..nLineData], Budget(timeout), idle0)
      modifies this, lineData
      ensures Valid() && nLineData <= MAX_LINE_DATA && totalSleep == SLEEP * idle
      ensures totalSleep < timeout ==>
                && Take(all, "") == Some(Taken(lineData[..nLineData], used, idle))
                && used <= |all| && pending == all[used..]
      ensures totalSleep >= timeout && Take(all, "").Some? ==> Take(all, "").value.idle >= idle
      ensures pending == Left(all, "", Budget(timeout))
    {
      hide Take;
      hide Follows;
      hide Left;
      totalSleep, used, idle := slept, used0, idle0;
      var buf := first;
      while totalSleep < timeout && nLineData < MAX_LINE_DATA
        invariant Valid() && 0 < nLineData <= MAX_LINE_DATA && buf == lineData[nLineData - 1] && !IsEol(buf)
        invariant totalSleep == SLEEP * idle && Follows(all, pending, lineData[..nLineData], used, idle)
        invariant Leaves(all, pending, lineData[..nLineData], Budget(timeout), idle)
        decreases timeout - totalSleep, |pending|
      {
        ghost var text := lineData[..nLineData];
        Polled(all, pending, text, used, idle);
        LeftStep(pending, text, Budget(timeout) - idle);
        used := if pending == [] then used else used + 1;
        var p := NextPoll();
        if p.Got? || p.Failed? {
          if p.Got? {
            buf := p.c;
          }
          if IsEol(buf) {
            Finished(all, pending, lineData[..nLineData], used, idle);
            return;
          }
          lineData[nLineData] := buf;
          nLineData := nLineData + 1;
          assert lineData[..nLineData] == text + [buf];
        } else {
          totalSleep := totalSleep + SLEEP;
          idle := idle + 1;
        }
      }
      Finished(all, pending, lineData[..nLineData], used, idle);
      Stopped(all, pending, lineData[..nLineData], Budget(timeout), idle);
    }
  }

  /** A result counted from `used` polls and `idle` sleeps earlier. */
  function Ahead(r: Option<Taken>, used: nat, idle: nat): Option<Taken> {
    if r == None then None else Some(Taken(r.value.text, r.value.polls + used, r.value.idle + idle))
  }

  /** Having used some polls and read `text`, what is left to take is what `all` still gives. */
  ghost predicate Follows(all: seq<Poll>, pending: seq<Poll>, text: string, used: nat, idle: nat) {
    && used <= |all| && pending == all[used..]
    && Take(all, "") == Ahead(Take(pending, text), used, idle)
  }

  /** Having slept `idle` times of `sleeps`, the polls left in the end are those that `all` leaves. */
  ghost predicate Leaves(all: seq<Poll>, pending: seq<Poll>, text: string, sleeps: nat, idle: nat) {
    idle <= sleeps && Left(all, "", sleeps) == Left(pending, text, sleeps - idle)
  }

  lemma Start(all: seq<Poll>)
    ensures Follows(all, all, "", 0, 0)
  {
  }

  lemma LeftStep(polls: seq<Poll>, text: string, sleeps: nat)
    requires |text| < MAX_LINE_DATA && sleeps > 0
    ensures Left(polls, text, sleeps) ==
            if polls == [] then []
            else if polls[0].Got? && IsEol(polls[0].c) && text != "" then polls[1..]
            else Left(polls[1..], Extended(polls[0], text), sleeps - if Sleeps(polls[0], text) then 1 else 0)
    ensures polls == [] ==> Left(polls, text, sleeps - 1) == []
  {
  }

  /** A call stops when its buffer is full or it has slept long enough. */
  lemma Stopped(all: seq<Poll>, pending: seq<Poll>, text: string, sleeps: nat, idle: nat)
    ensures Leaves(all, pending, text, sleeps, idle) && (idle == sleeps || |text| >= MAX_LINE_DATA) ==>
              pending == Left(all, "", sleeps)
  {
  }

  lemma Polled(all: seq<Poll>, pending: seq<Poll>, text: string, used: nat, idle: nat)
    requires Follows(all, pending, text, used, idle) && |text| < MAX_LINE_DATA
    ensures pending == [] ==> Follows(all, pending, text, used, idle + 1)
    ensures pending != [] ==>
              var p := pending[0];
              if p.Got? && IsEol(p.c) && text != "" then
                Take(all, "") == Some(Taken(text, used + 1, idle)) && used < |all| && pending[1..] == all[used + 1..]
              else
                Follows(all, pending[1..], Extended(p, text), used + 1, idle + if Sleeps(p, text) then 1 else 0)
  {
    hide Take;
    hide Sleeps;
    hide Extended;
    TakeStep(pending, text);
    if pending != [] {
      assert all[used..][1..] == all[used + 1..];
      var p := pending[0];
      if !(p.Got? && IsEol(p.c) && text != "") {
        PolledMore(all, pending[1..], Take(pending, text), Extended(p, text), used, idle,
                   if Sleeps(p, text) then 1 else 0);
      }
    }
  }

  lemma PolledMore(all: seq<Poll>, rest: seq<Poll>, now: Option<Taken>, text: string, used: nat, idle: nat, sleeps: nat)
    requires used < |all| && rest == all[used + 1..]
    requires Take(all, "") == Ahead(now, used, idle)
    requires now == Ahead(Take(rest, text), 1, sleeps)
    ensures Follows(all, rest, text, used + 1, idle + sleeps)
  {
    hide Take;
  }

  lemma TakeStep(polls: seq<Poll>, text: string)
    requires |text| < MAX_LINE_DATA
    ensures Take(polls, text) ==
            if polls == [] then None
            else if polls[0].Got? && IsEol(polls[0].c) && text != "" then Some(Taken(text, 1, 0))
            else Ahead(Take(polls[1..], Extended(polls[0], text)), 1, if Sleeps(polls[0], text) then 1 else 0)
  {
  }

  lemma Finished(all: seq<Poll>, pending: seq<Poll>, text: string, used: nat, idle: nat)
    ensures Follows(all, pending, text, used, idle) && |text| >= MAX_LINE_DATA ==>
              Take(all, "") == Some(Taken(text, used, idle)) && used <= |all| && pending == all[used..]
    ensures Follows(all, pending, text, used, idle) && Take(all, "").Some? ==>
              Take(all, "").value.idle >= idle
  {
  }

  /** What each poll does to a line of which `text` is read, up to 32 characters: nothing ready, end of file and an
      error before the first byte each cost one sleep; an error after it repeats the last byte; a carriage return or
      a newline ends the line if there is one; any other byte is added to it. */
  lemma EachPoll(rest: seq<Poll>, text: string, c: char)
    requires |text| < 32
    ensures Take([NotReady] + rest, text) == Ahead(Take(rest, text), 1, 1)
    ensures Take([Closed] + rest, text) == Ahead(Take(rest, text), 1, 1)
    ensures Take([Failed] + rest, text) ==
            if text == "" then Ahead(Take(rest, ""), 1, 1) else Ahead(Take(rest, text + [text[|text| - 1]]), 1, 0)
    ensures Take([Got(c)] + rest, text) ==
            if c != '\r' && c != '\n' then Ahead(Take(rest, text + [c]), 1, 0)
            else if text == "" then Ahead(Take(rest, ""), 1, 0)
            else Some(Taken(text, 1, 0))
    ensures Take([], text) == None
  {
    hide Take;
    OnePoll(NotReady, rest, text);
    OnePoll(Closed, rest, text);
    OnePoll(Failed, rest, text);
    OnePoll(Got(c), rest, text);
    TakeStep([], text);
  }

  lemma OnePoll(p: Poll, rest: seq<Poll>, text: string)
    requires |text| < 32
    ensures Take([p] + rest, text) ==
            if p.Got? && IsEol(p.c) && text != "" then Some(Taken(text, 1, 0))
            else Ahead(Take(rest, Extended(p, text)), 1, if Sleeps(p, text) then 1 else 0)
  {
    hide Take;
    assert ([p] + rest)[1..] == rest;
    TakeStep([p] + rest, text);
  }
}
