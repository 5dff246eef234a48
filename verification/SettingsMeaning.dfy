/** What a settings text means: every entry belongs to the header above it, the last assignment wins. */
module SettingsMeaning {
  import opened Options
  import opened HashTable
  import opened SettingsText
  import opened SettingsRoundTrip

  /** The header an entry placed at line `i` belongs to: the last one above it. */
  function HeaderAbove(lines: seq<Line>, i: nat): Option<string>
    requires i <= |lines|
  {
    if i == 0 then None
    else if lines[i - 1].Header? then Some(lines[i - 1].name)
    else HeaderAbove(lines, i - 1)
  }

  /** The line is an assignment to `key` in section `name`. */
  predicate Assigns(lines: seq<Line>, i: nat, name: string, key: string)
    requires i < |lines|
  {
    lines[i].Entry? && lines[i].key == key && HeaderAbove(lines, i) == Some(name)
  }

  /** No line is refused: none is malformed, and every entry has a header with a name above it. */
  ghost predicate Accepted(lines: seq<Line>) {
    forall i :: 0 <= i < |lines| ==> LineAccepted(lines, i)
  }

  ghost predicate LineAccepted(lines: seq<Line>, i: nat)
    requires i < |lines|
  {
    && !lines[i].Bad?
    && (lines[i].Entry? ==> HeaderAbove(lines, i).Some? && HeaderAbove(lines, i).value != "")
  }

  /** `v` is the value of the last assignment to `key` in section `name`, or none if there is none. */
  ghost predicate IsLastValue(lines: seq<Line>, name: string, key: string, v: Option<string>) {
    match v
    case None => forall i :: 0 <= i < |lines| ==> !Assigns(lines, i, name, key)
    case Some(value) =>
      exists i ::
        && 0 <= i < |lines| && Assigns(lines, i, name, key) && lines[i].value == value
        && forall j :: i < j < |lines| ==> !Assigns(lines, j, name, key)
  }

  /** The sections entries fall in, each at the place of its first entry. */
  function SectionOrder(lines: seq<Line>): seq<string> {
    if lines == [] then []
    else
      var n := |lines| - 1;
      var names := SectionOrder(lines[..n]);
      var above := HeaderAbove(lines, n);
      if lines[n].Entry? && above.Some? && above.value !in names then names + [above.value] else names
  }

  function Names(ss: seq<Section>): seq<string> {
    seq(|ss|, i requires 0 <= i < |ss| => ss[i].name)
  }

  // ---------- Running the lines one by one ----------

  function Run(p: Parse, hash: string -> nat, lines: seq<Line>): (q: Option<Parse>)
    requires HasBuckets(p.sections)
    ensures q.Some? ==> HasBuckets(q.value.sections)
  {
    if lines == [] then Some(p)
    else
      var front := Run(p, hash, lines[..|lines| - 1]);
      if front == None then None else Step(front.value, hash, lines[|lines| - 1])
  }

  lemma {:induction false} RunCons(p: Parse, hash: string -> nat, line: Line, lines: seq<Line>)
    requires HasBuckets(p.sections)
    ensures Run(p, hash, [line] + lines) ==
            var q := Step(p, hash, line);
            if q == None then None else Run(q.value, hash, lines)
    decreases |lines|
  {
    hide Step;
    if lines == [] {
      assert [line] + lines == [line];
      assert [line][..0] == [];
    } else {
      var n := |lines| - 1;
      RunCons(p, hash, line, lines[..n]);
      assert ([line] + lines)[..n + 1] == [line] + lines[..n];
    }
  }

  lemma {:induction false} ParseIsRun(p: Parse, hash: string -> nat, text: string)
    requires HasBuckets(p.sections)
    ensures ParseFrom(p, hash, text) == Run(p, hash, Lines(text))
    decreases |text|
  {
    hide Step;
    hide FirstLine;
    if text != "" {
      var line := FirstLine(text);
      var rest := text[ChunkLen(text)..];
      var q := Step(p, hash, line);
      RunCons(p, hash, line, Lines(rest));
      if q.Some? {
        ParseIsRun(q.value, hash, rest);
      }
    }
  }

  // ---------- The meaning of each prefix ----------

  lemma {:induction false} HeaderAbovePrefix(lines: seq<Line>, n: nat, i: nat)
    requires i <= n <= |lines|
    ensures HeaderAbove(lines[..n], i) == HeaderAbove(lines, i)
  {
    if i > 0 {
      HeaderAbovePrefix(lines, n, i - 1);
    }
  }

  lemma AssignsPrefix(lines: seq<Line>, n: nat, name: string, key: string)
    requires n <= |lines|
    ensures forall i :: 0 <= i < n ==> Assigns(lines[..n], i, name, key) == Assigns(lines, i, name, key)
    ensures n < |lines| && Assigns(lines, n, name, key) ==> lines[n].Entry?
  {
    forall i | 0 <= i < n
      ensures Assigns(lines[..n], i, name, key) == Assigns(lines, i, name, key)
    {
      HeaderAbovePrefix(lines, n, i);
    }
  }

  /** What one more line does to the last values. */
  lemma LastValueStep(lines: seq<Line>, name: string, key: string, v: Option<string>)
    requires lines != []
    requires IsLastValue(lines[..|lines| - 1], name, key, v)
    ensures var n := |lines| - 1;
            IsLastValue(lines, name, key,
                        if Assigns(lines, n, name, key) then Some(lines[n].value) else v)
  {
    var n := |lines| - 1;
    AssignsPrefix(lines, n, name, key);
    hide Assigns;
    if Assigns(lines, n, name, key) {
      LastAt(lines, n, name, key);
    } else if v.Some? {
      var i :| 0 <= i < n && Assigns(lines[..n], i, name, key) && lines[..n][i].value == v.value
        && forall j :: i < j < n ==> !Assigns(lines[..n], j, name, key);
      LastAt(lines, i, name, key);
    }
  }

  lemma LastAt(lines: seq<Line>, i: nat, name: string, key: string)
    requires i < |lines| && Assigns(lines, i, name, key)
    requires forall j :: i < j < |lines| ==> !Assigns(lines, j, name, key)
    ensures IsLastValue(lines, name, key, Some(lines[i].value))
  {
    hide Assigns;
  }

  ghost predicate Placed(ss: seq<Section>, hash: string -> nat) {
    && HasBuckets(ss) && DistinctNames(ss)
    && forall s <- ss :: WellPlaced(s.buckets, hash)
  }

  lemma SetInValue(ss: seq<Section>, hash: string -> nat, name: string, key: string, value: string)
    requires Placed(ss, hash)
    ensures Placed(SetIn(ss, hash, name, key, value), hash)
    ensures forall n, k :: ValueIn(SetIn(ss, hash, name, key, value), hash, n, k) ==
                           if n == name && k == key then Some(value) else ValueIn(ss, hash, n, k)
    ensures Names(SetIn(ss, hash, name, key, value)) ==
            if name in Names(ss) then Names(ss) else Names(ss) + [name]
  {
    var ss' := SetIn(ss, hash, name, key, value);
    var i := FindSection(ss, name);
    EmptyIsEmpty(CAPACITY, hash);
    var before := if i < |ss| then ss[i].buckets else Empty(CAPACITY);
    PutPlaced(before, hash, key, value);
    assert name in Names(ss) <==> i < |ss| by {
      assert i < |ss| ==> Names(ss)[i] == name;
      assert forall j :: 0 <= j < |ss| ==> Names(ss)[j] == ss[j].name;
    }
    forall n, k
      ensures ValueIn(ss', hash, n, k) ==
              if n == name && k == key then Some(value) else ValueIn(ss, hash, n, k)
    {
      PutLookup(before, hash, key, value, k);
      SetInFind(ss, hash, name, key, value, n);
    }
  }

  lemma SetInFind(ss: seq<Section>, hash: string -> nat, name: string, key: string, value: string, n: string)
    requires HasBuckets(ss)
    ensures var ss' := SetIn(ss, hash, name, key, value);
            && (n != name ==> (FindSection(ss', n) < |ss'| <==> FindSection(ss, n) < |ss|))
            && (n != name && FindSection(ss, n) < |ss| ==> ss'[FindSection(ss', n)] == ss[FindSection(ss, n)])
            && (n == name ==> FindSection(ss', n) == FindSection(ss, n))
  {
    hide Put;
    var ss' := SetIn(ss, hash, name, key, value);
    var i := FindSection(ss, n);
    if i < |ss| || n == name {
      FindSectionIs(ss', n, i);
    } else {
      FindSectionIs(ss', n, |ss'|);
    }
  }

  ghost predicate Means(ss: seq<Section>, hash: string -> nat, lines: seq<Line>)
    requires HasBuckets(ss)
  {
    && Placed(ss, hash)
    && Names(ss) == SectionOrder(lines)
    && forall name, key :: IsLastValue(lines, name, key, ValueIn(ss, hash, name, key))
  }

  lemma {:induction false} MeaningStep(p: Parse, hash: string -> nat, lines: seq<Line>)
    requires lines != []
    requires var front := lines[..|lines| - 1];
             HasBuckets(p.sections) && p.header == HeaderAbove(front, |front|) && Means(p.sections, hash, front)
    ensures var n := |lines| - 1;
            var q := Step(p, hash, lines[n]);
            && (q.Some? <==> LineAccepted(lines, n))
            && (q.Some? ==>
                  && q.value.header == HeaderAbove(lines, n + 1)
                  && Means(q.value.sections, hash, lines))
  {
    hide SetIn;
    hide ValueIn;
    hide IsLastValue;
    hide Placed;
    var n := |lines| - 1;
    HeaderAbovePrefix(lines, n, n);
    var line := lines[n];
    if line.Entry? && p.header.Some? {
      SetInValue(p.sections, hash, p.header.value, line.key, line.value);
    }
    var q := Step(p, hash, line);
    if q.Some? {
      var ss := q.value.sections;
      forall name, key
        ensures IsLastValue(lines, name, key, ValueIn(ss, hash, name, key))
      {
        LastValueStep(lines, name, key, ValueIn(p.sections, hash, name, key));
        assert ValueIn(ss, hash, name, key) ==
               if Assigns(lines, n, name, key) then Some(line.value) else ValueIn(p.sections, hash, name, key);
      }
      assert Names(ss) == SectionOrder(lines);
    }
  }

  lemma {:induction false} RunMeans(hash: string -> nat, lines: seq<Line>)
    ensures var q := Run(Parse([], None), hash, lines);
            && (q.Some? <==> Accepted(lines))
            && (q.Some? ==>
                  && q.value.header == HeaderAbove(lines, |lines|)
                  && Means(q.value.sections, hash, lines))
  {
    if lines != [] {
      var n := |lines| - 1;
      RunMeans(hash, lines[..n]);
      var front := Run(Parse([], None), hash, lines[..n]);
      AcceptedSplit(lines);
      if front.Some? {
        MeaningStep(front.value, hash, lines);
      }
    }
  }

  lemma AcceptedSplit(lines: seq<Line>)
    requires lines != []
    ensures Accepted(lines) <==> Accepted(lines[..|lines| - 1]) && LineAccepted(lines, |lines| - 1)
  {
    var n := |lines| - 1;
    forall i | 0 <= i < n
      ensures LineAccepted(lines[..n], i) == LineAccepted(lines, i)
    {
      HeaderAbovePrefix(lines, n, i);
    }
    assert Accepted(lines[..n]) ==> forall i :: 0 <= i < n ==> LineAccepted(lines[..n], i);
  }

  /** A text loads exactly when none of its lines is refused. It then holds, for every section and key,
      the value of the last assignment, and its sections stand in the order of their first entries. */
  lemma ParserMeaning(text: string, hash: string -> nat)
    ensures Load(text, hash).Some? <==> Accepted(Lines(text))
    ensures Load(text, hash).Some? ==>
              var ss := Load(text, hash).value;
              && HasBuckets(ss)
              && Names(ss) == SectionOrder(Lines(text))
              && forall name, key :: IsLastValue(Lines(text), name, key, ValueIn(ss, hash, name, key))
  {
    ParseIsRun(Parse([], None), hash, text);
    RunMeans(hash, Lines(text));
  }
}
