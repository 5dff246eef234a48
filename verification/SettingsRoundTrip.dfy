/** Printing a settings object and parsing the text back (settings_save then settings_open). */
module SettingsRoundTrip {
  import opened Options
  import opened Seqs
  import opened CStrings
  import opened HashTable
  import opened StrMaps
  import opened SettingsText

  // ---------- What the parser can produce ----------

  /** Text of one line after trimming. */
  ghost predicate LineText(s: string) {
    Plain(s) && '\n' !in s && Tight(s) && |s| < MAX_LINECHARS
  }

  ghost predicate GoodName(name: string) {
    Plain(name) && '\n' !in name && ']' !in name && |name| <= MAX_LINECHARS - 3
  }

  ghost predicate GoodPair(p: Pair) {
    && Plain(p.key) && Plain(p.value) && '\n' !in p.key && '\n' !in p.value
    && p.key != "" && '=' !in p.key && Tight(p.key) && Tight(p.value)
    && p.key[0] != '#'
    && (p.key[0] == '[' ==> ']' !in p.key && ']' !in p.value)
  }

  ghost predicate GoodLine(line: Line) {
    match line
    case Header(name) => GoodName(name)
    case Entry(key, value) => GoodPair(Pair(key, value))
    case _ => true
  }

  ghost predicate GoodSection(s: Section, hash: string -> nat) {
    && s.name != "" && GoodName(s.name)
    && |s.buckets| == CAPACITY && WellPlaced(s.buckets, hash)
    && Pairs(s.buckets) != []
    && forall p <- Pairs(s.buckets) :: GoodPair(p)
  }

  ghost predicate DistinctNames(ss: seq<Section>) {
    forall i, j :: 0 <= i < j < |ss| ==> ss[i].name != ss[j].name
  }

  /** Settings some text can describe: distinct non-empty sections with printable names, keys and values. */
  ghost predicate WellFormed(ss: seq<Section>, hash: string -> nat) {
    && DistinctNames(ss)
    && forall s <- ss :: GoodSection(s, hash)
  }

  /** The first line of a text, as trimmed, holds no newline: the only one there was is at its end. */
  lemma NewlineEndsChunk(text: string, j: nat)
    requires text != "" && j < ChunkLen(text) && text[j] == '\n'
    ensures j == ChunkLen(text) - 1
  {
  }

  lemma FirstLineText(text: string)
    requires text != ""
    ensures LineText(Trim(CString(text[..ChunkLen(text)])))
  {
    hide ChunkLen;
    hide Trim;
    hide CString;
    var t := CString(text[..ChunkLen(text)]);
    TrimSplit(t);
    var s := Trim(t);
    var a, b :| AllBlank(a) && AllBlank(b) && t == a + s + b;
    forall i | 0 <= i < |s|
      ensures s[i] != '\n' && s[i] != NUL
    {
      assert t[|a| + i] == s[i] == text[|a| + i];
      assert s[i] in t;
      if text[|a| + i] == '\n' {
        NewlineEndsChunk(text, |a| + i);
      }
    }
  }

  lemma {:induction false} EntryGood(s: string, i: nat)
    requires LineText(s) && 0 < i < |s| && s[i] == '=' && '=' !in s[..i]
    requires s[0] != '#' && (s[0] == '[' ==> ']' !in s)
    ensures GoodPair(Pair(DropTrailing(s[..i]), DropLeading(s[i + 1..])))
  {
    hide DropTrailing;
    hide DropLeading;
    var key, value := DropTrailing(s[..i]), DropLeading(s[i + 1..]);
    DropTrailingSplit(s[..i]);
    DropLeadingSplit(s[i + 1..]);
    var b :| AllBlank(b) && s[..i] == key + b;
    var a :| AllBlank(a) && s[i + 1..] == a + value;
    assert (key + b)[0] == s[0];
    assert key[0] == s[..i][0] == s[0];
    assert value != "" ==> value[|value| - 1] == s[i + 1..][|s| - i - 2] == s[|s| - 1];
    forall c
      ensures c in key ==> c in s[..i]
      ensures c in value || c in key ==> c in s
    {
      assert s[..i] + ['='] + (a + value) == s;
    }
  }

  lemma ReadLineGood(s: string)
    requires LineText(s)
    ensures GoodLine(ReadLine(s))
  {
    match ReadLine(s)
    case Header(name) =>
      assert forall c <- name :: c in s;
    case Entry(_, _) =>
      var i := IndexOf(s, '=');
      assert s[0] == '[' ==> IndexOf(s, ']') == |s|;
      if i < |s| {
        EntryGood(s, i);
      }
    case _ =>
  }

  lemma PutGood(b: seq<Bucket>, hash: string -> nat, p: Pair)
    requires |b| == CAPACITY && WellPlaced(b, hash)
    requires forall q <- Pairs(b) :: GoodPair(q)
    requires GoodPair(p)
    ensures var c := Put(b, hash, p.key, p.value);
            && |c| == CAPACITY && WellPlaced(c, hash)
            && Pairs(c) != [] && forall q <- Pairs(c) :: GoodPair(q)
  {
    PutRefines(b, hash, p.key, p.value);
    var c := Put(b, hash, p.key, p.value);
    EnumeratesMap(b, hash);
    EnumeratesMap(c, hash);
    assert Pair(p.key, p.value) in Pairs(c);
    forall q | q in Pairs(c)
      ensures GoodPair(q)
    {
      assert q == Pair(q.key, q.value);
      assert q == p || q in Pairs(b);
    }
  }

  lemma SetInKeeps(ss: seq<Section>, hash: string -> nat, name: string, p: Pair)
    requires HasBuckets(ss) && WellFormed(ss, hash) && GoodName(name) && name != "" && GoodPair(p)
    ensures WellFormed(SetIn(ss, hash, name, p.key, p.value), hash)
  {
    var i := FindSection(ss, name);
    if i < |ss| {
      assert GoodSection(ss[i], hash);
      PutGood(ss[i].buckets, hash, p);
    } else {
      EmptyIsEmpty(CAPACITY, hash);
      FlattenEmpty(CAPACITY);
      PutGood(Empty(CAPACITY), hash, p);
    }
  }

  lemma {:induction false} FlattenEmpty(n: nat)
    ensures Flatten(Empty(n)) == []
  {
    if n > 0 {
      FlattenEmpty(n - 1);
      assert Empty(n)[..n - 1] == Empty(n - 1);
    }
  }

  lemma {:induction false} ParseKeeps(p: Parse, hash: string -> nat, text: string)
    requires HasBuckets(p.sections) && WellFormed(p.sections, hash)
    requires p.header.Some? ==> GoodName(p.header.value)
    ensures ParseFrom(p, hash, text).Some? ==> WellFormed(ParseFrom(p, hash, text).value.sections, hash)
    decreases |text|
  {
    if text != "" {
      FirstLineText(text);
      ReadLineGood(Trim(CString(text[..ChunkLen(text)])));
      var line := FirstLine(text);
      var q := Step(p, hash, line);
      if q.Some? {
        if line.Entry? {
          SetInKeeps(p.sections, hash, p.header.value, Pair(line.key, line.value));
        }
        ParseKeeps(q.value, hash, text[ChunkLen(text)..]);
      }
    }
  }

  /** Whatever a text loads as is well-formed. */
  lemma LoadWellFormed(text: string, hash: string -> nat)
    ensures Load(text, hash).Some? ==> WellFormed(Load(text, hash).value, hash)
    ensures Load(text, hash).Some? ==> forall s <- Load(text, hash).value :: |s.buckets| == 256
  {
    ParseKeeps(Parse([], None), hash, text);
  }

  // ---------- What the printer leaves out ----------

  function KeepShort(ps: seq<Pair>): seq<Pair> {
    if ps == [] then []
    else KeepShort(ps[..|ps| - 1]) + if Short(ps[|ps| - 1].key, ps[|ps| - 1].value) then [ps[|ps| - 1]] else []
  }

  function ShortBuckets(b: seq<Bucket>): seq<Bucket> {
    seq(|b|, i requires 0 <= i < |b| => KeepShort(b[i]))
  }

  /** The settings without the pairs too long to print, and without sections left empty. */
  function Prune(ss: seq<Section>): seq<Section> {
    if ss == [] then []
    else
      var b := ShortBuckets(ss[0].buckets);
      (if Pairs(b) == [] then [] else [Section(ss[0].name, b)]) + Prune(ss[1..])
  }

  ghost predicate AllShort(ss: seq<Section>) {
    forall s <- ss :: ShortPairs(Pairs(s.buckets))
  }

  ghost predicate ShortPairs(ps: seq<Pair>) {
    forall p <- ps :: Short(p.key, p.value)
  }

  lemma {:induction false} KeepShortAppend(ps: seq<Pair>, qs: seq<Pair>)
    ensures KeepShort(ps + qs) == KeepShort(ps) + KeepShort(qs)
    decreases |qs|
  {
    if qs == [] {
      assert ps + qs == ps;
    } else {
      var n := |qs| - 1;
      KeepShortAppend(ps, qs[..n]);
      assert (ps + qs)[..|ps| + n] == ps + qs[..n];
    }
  }

  lemma {:induction false} KeepShortKeeps(ps: seq<Pair>)
    ensures forall p :: p in KeepShort(ps) <==> p in ps && Short(p.key, p.value)
    ensures DistinctKeys(ps) ==> DistinctKeys(KeepShort(ps))
  {
    if ps != [] {
      var n := |ps| - 1;
      assert ps == ps[..n] + [ps[n]];
      KeepShortKeeps(ps[..n]);
      var front := KeepShort(ps[..n]);
      if DistinctKeys(ps) {
        assert forall j :: 0 <= j < |front| ==> front[j] in ps[..n];
      }
    }
  }

  lemma {:induction false} KeepShortSame(ps: seq<Pair>)
    ensures |KeepShort(ps)| <= |ps|
    ensures KeepShort(ps) == ps <==> ShortPairs(ps)
  {
    if ps != [] {
      var n := |ps| - 1;
      assert ps == ps[..n] + [ps[n]];
      KeepShortSame(ps[..n]);
    }
  }

  lemma {:induction false} PairsOfShort(b: seq<Bucket>)
    ensures Pairs(ShortBuckets(b)) == KeepShort(Pairs(b))
    decreases |b|
  {
    if b != [] {
      var n := |b| - 1;
      PairsOfShort(b[..n]);
      assert ShortBuckets(b)[..n] == ShortBuckets(b[..n]);
      KeepShortAppend(Flatten(b[..n]), b[n]);
    }
  }

  lemma ShortPlaced(b: seq<Bucket>, hash: string -> nat)
    requires WellPlaced(b, hash)
    ensures WellPlaced(ShortBuckets(b), hash)
  {
    var c: seq<Bucket> := ShortBuckets(b);
    forall i | 0 <= i < |c|
      ensures DistinctKeys(c[i]) && forall j :: 0 <= j < |c[i]| ==> hash(c[i][j].key) % |c| == i
    {
      KeepShortKeeps(b[i]);
      forall j: int | 0 <= j < |c[i]|
        ensures hash(c[i][j].key) % |c| == i
      {
        assert c[i][j] in b[i];
      }
    }
  }

  lemma {:induction false} AllShortBuckets(b: seq<Bucket>)
    requires ShortPairs(Pairs(b))
    ensures ShortBuckets(b) == b
  {
    forall i | 0 <= i < |b|
      ensures KeepShort(b[i]) == b[i]
    {
      forall p | p in b[i]
        ensures Short(p.key, p.value)
      {
        InFlatten(b, p);
      }
      KeepShortSame(b[i]);
    }
  }

  /** Pruning changes nothing exactly when every pair is short enough to print. */
  lemma PruneSection(s: Section)
    requires Pairs(s.buckets) != []
    ensures |Prune([s])| <= 1
    ensures Prune([s]) == [s] <==> ShortPairs(Pairs(s.buckets))
  {
    var b := s.buckets;
    PairsOfShort(b);
    KeepShortKeeps(Pairs(b));
    if ShortPairs(Pairs(b)) {
      AllShortBuckets(b);
    }
  }

  lemma {:induction false} PruneFixed(ss: seq<Section>)
    requires forall s <- ss :: Pairs(s.buckets) != []
    ensures |Prune(ss)| <= |ss|
    ensures Prune(ss) == ss <==> AllShort(ss)
  {
    if ss != [] {
      PruneFixed(ss[1..]);
      PruneSection(ss[0]);
      PruneCons(ss);
      assert ss == [ss[0]] + ss[1..];
      assert AllShort(ss) <==> ShortPairs(Pairs(ss[0].buckets)) && AllShort(ss[1..]);
    }
  }

  // ---------- What looking up finds after pruning ----------

  /** A value that is found, unless key or value are too long to print. */
  function ShortOnly(key: string, v: Option<string>): Option<string> {
    if v.Some? && |key| < 256 && |v.value| < 256 then v else None
  }

  lemma FindKept(bucket: Bucket, key: string)
    requires DistinctKeys(bucket)
    ensures var i, j := Find(bucket, key), Find(KeepShort(bucket), key);
            (if j < |KeepShort(bucket)| then Some(KeepShort(bucket)[j].value) else None) ==
            ShortOnly(key, if i < |bucket| then Some(bucket[i].value) else None)
  {
    KeepShortKeeps(bucket);
    var kept := KeepShort(bucket);
    var i, j := Find(bucket, key), Find(kept, key);
    assert i < |bucket| && |key| < 256 && |bucket[i].value| < 256 ==> bucket[i] in kept;
    if j < |kept| {
      assert kept[j] in bucket;
      var k :| 0 <= k < |bucket| && bucket[k] == kept[j];
      FindIs(bucket, k);
    }
  }

  lemma LookupShort(b: seq<Bucket>, hash: string -> nat, key: string)
    requires |b| > 0 && WellPlaced(b, hash)
    ensures Lookup(ShortBuckets(b), hash, key) == ShortOnly(key, Lookup(b, hash, key))
  {
    FindKept(b[Slot(b, hash, key)], key);
  }

  lemma LookupNothing(b: seq<Bucket>, hash: string -> nat, key: string)
    requires |b| > 0 && Pairs(b) == []
    ensures Lookup(b, hash, key) == None
  {
    var s := Slot(b, hash, key);
    var i := Find(b[s], key);
    if i < |b[s]| {
      InFlatten(b, b[s][i]);
    }
  }

  lemma ValueInCons(s: Section, ss: seq<Section>, hash: string -> nat, name: string, key: string)
    requires |s.buckets| > 0 && HasBuckets(ss)
    ensures ValueIn([s] + ss, hash, name, key) ==
            if s.name == name then Lookup(s.buckets, hash, key) else ValueIn(ss, hash, name, key)
  {
    assert ([s] + ss)[1..] == ss;
  }

  lemma {:induction false} NoValue(ss: seq<Section>, hash: string -> nat, name: string, key: string)
    requires HasBuckets(ss) && forall s <- ss :: s.name != name
    ensures ValueIn(ss, hash, name, key) == None
  {
    FindSectionIs(ss, name, |ss|);
  }

  lemma {:induction false} PruneNew(ss: seq<Section>, name: string)
    requires forall s <- ss :: s.name != name
    ensures forall s <- Prune(ss) :: s.name != name
  {
    if ss != [] {
      PruneNew(ss[1..], name);
    }
  }

  /** Pruned settings have buckets, and looking up in them finds the values short enough to print, no others. */
  lemma {:induction false} PruneValue(ss: seq<Section>, hash: string -> nat, name: string, key: string)
    requires HasBuckets(ss) && DistinctNames(ss) && forall s <- ss :: WellPlaced(s.buckets, hash)
    ensures HasBuckets(Prune(ss))
    ensures ValueIn(Prune(ss), hash, name, key) == ShortOnly(key, ValueIn(ss, hash, name, key))
  {
    hide ValueIn;
    hide Lookup;
    if ss == [] {
      NoValue(ss, hash, name, key);
    } else {
      PruneValue(ss[1..], hash, name, key);
      PruneFirst(ss[0], ss[1..], hash, name, key);
      assert ss == [ss[0]] + ss[1..];
      PruneCons(ss);
    }
  }

  lemma PruneFirst(s: Section, ss: seq<Section>, hash: string -> nat, name: string, key: string)
    requires |s.buckets| > 0 && WellPlaced(s.buckets, hash)
    requires HasBuckets(ss) && HasBuckets(Prune(ss)) && forall t <- ss :: t.name != s.name
    requires ValueIn(Prune(ss), hash, name, key) == ShortOnly(key, ValueIn(ss, hash, name, key))
    ensures HasBuckets(Prune([s]) + Prune(ss))
    ensures ValueIn(Prune([s]) + Prune(ss), hash, name, key) == ShortOnly(key, ValueIn([s] + ss, hash, name, key))
  {
    hide ValueIn;
    hide Lookup;
    hide Pairs;
    hide WellPlaced;
    var b := ShortBuckets(s.buckets);
    PruneOne(s);
    hide Prune;
    LookupShort(s.buckets, hash, key);
    ValueInCons(s, ss, hash, name, key);
    if Pairs(b) == [] {
      LookupNothing(b, hash, key);
      assert [] + Prune(ss) == Prune(ss);
      if s.name == name {
        PruneNew(ss, name);
        NoValue(Prune(ss), hash, name, key);
      }
    } else {
      ValueInCons(Section(s.name, b), Prune(ss), hash, name, key);
    }
  }

  // ---------- Reading printed lines back ----------

  /** One printed line is taken whole by `fgets`. */
  lemma LineTaken(line: string, rest: string)
    requires Plain(line) && '\n' !in line && |line| < MAX_LINECHARS - 1
    ensures var text := line + "\n" + rest;
            && ChunkLen(text) == |line| + 1
            && text[|line| + 1..] == rest
            && FirstLine(text) == ReadLine(Trim(line + "\n"))
  {
    var text := line + "\n" + rest;
    IndexOfIs(text, '\n', |line|);
    assert text[..|line| + 1] == line + "\n";
    CStringPlain(line + "\n");
  }

  lemma TrimLine(line: string)
    requires Tight(line)
    ensures Trim(line + "\n") == line
  {
    TrimIs("", line, "\n");
    assert "" + line + "\n" == line + "\n";
  }

  lemma ReadPair(p: Pair)
    requires GoodPair(p)
    ensures ReadLine(p.key + "=" + p.value) == Entry(p.key, p.value)
    ensures Tight(p.key + "=" + p.value)
  {
    var s := p.key + "=" + p.value;
    assert s[0] == p.key[0];
    IndexOfIs(s, '=', |p.key|);
    assert s[..|p.key|] == p.key && s[|p.key| + 1..] == p.value;
    DropTrailingIs(p.key, "");
    assert p.key + "" == p.key;
    DropLeadingIs("", p.value);
    assert "" + p.value == p.value;
    if s[0] == '[' {
      IndexOfIs(s, ']', |s|);
    }
  }

  lemma PairLine(p: Parse, hash: string -> nat, pair: Pair, rest: string)
    requires HasBuckets(p.sections) && p.header.Some? && p.header.value != ""
    requires GoodPair(pair) && Short(pair.key, pair.value)
    ensures ParseFrom(p, hash, PairText(pair.key, pair.value) + rest) ==
            ParseFrom(p.(sections := SetIn(p.sections, hash, p.header.value, pair.key, pair.value)), hash, rest)
  {
    hide SetIn;
    var line := pair.key + "=" + pair.value;
    ReadPair(pair);
    TrimLine(line);
    LineTaken(line, rest);
  }

  lemma ReadHeader(name: string)
    requires GoodName(name)
    ensures ReadLine("[" + name + "]") == Header(name)
    ensures Tight("[" + name + "]") && Plain("[" + name + "]") && '\n' !in "[" + name + "]"
  {
    var line := "[" + name + "]";
    IndexOfIs(line, ']', |name| + 1);
    assert line[1..|name| + 1] == name;
    assert line[0] in line;
  }

  /** A line that fills the buffer is taken without its newline. */
  lemma FullLineTaken(line: string, rest: string)
    requires Plain(line) && '\n' !in line && |line| == MAX_LINECHARS - 1
    ensures var text := line + "\n" + rest;
            && ChunkLen(text) == |line|
            && text[|line|..] == "\n" + rest
            && FirstLine(text) == ReadLine(Trim(line))
  {
    var text := line + "\n" + rest;
    IndexOfIs(text, '\n', |line|);
    assert text[..|line|] == line;
    CStringPlain(line);
  }

  lemma HeaderLine(p: Parse, hash: string -> nat, name: string, rest: string)
    requires HasBuckets(p.sections) && GoodName(name)
    ensures ParseFrom(p, hash, HeaderText(name) + rest) == ParseFrom(p.(header := Some(name)), hash, rest)
  {
    var line := "[" + name + "]";
    ReadHeader(name);
    assert HeaderText(name) + rest == line + "\n" + rest;
    if |line| < MAX_LINECHARS - 1 {
      TrimLine(line);
      LineTaken(line, rest);
    } else {
      // the newline of a line that fills the buffer is read as a line of its own
      FullLineTaken(line, rest);
      TrimIs("", line, "");
      assert "" + line + "" == line;
      BlankLine(p.(header := Some(name)), hash, rest);
    }
  }

  lemma BlankLine(p: Parse, hash: string -> nat, rest: string)
    requires HasBuckets(p.sections)
    ensures ParseFrom(p, hash, "\n" + rest) == ParseFrom(p, hash, rest)
  {
    LineTaken("", rest);
    assert "" + "\n" + rest == "\n" + rest;
    TrimLine("");
    assert "" + "\n" == "\n";
  }

  function SetAll(ss: seq<Section>, hash: string -> nat, name: string, ps: seq<Pair>): (ss': seq<Section>)
    requires HasBuckets(ss)
    ensures HasBuckets(ss')
  {
    if ps == [] then ss
    else SetIn(SetAll(ss, hash, name, ps[..|ps| - 1]), hash, name, ps[|ps| - 1].key, ps[|ps| - 1].value)
  }

  lemma {:induction false} PairLines(p: Parse, hash: string -> nat, ps: seq<Pair>, rest: string)
    requires HasBuckets(p.sections) && p.header.Some? && p.header.value != ""
    requires forall q <- ps :: GoodPair(q)
    ensures ParseFrom(p, hash, Emitted(PairText, ps) + rest) ==
            ParseFrom(p.(sections := SetAll(p.sections, hash, p.header.value, KeepShort(ps))), hash, rest)
    decreases |ps|
  {
    hide ParseFrom;
    hide SetIn;
    hide GoodPair;
    if ps == [] {
      assert Emitted(PairText, ps) + rest == rest;
    } else {
      hide Emitted;
      hide SetAll;
      var n := |ps| - 1;
      var last := PairText(ps[n].key, ps[n].value);
      assert ps == ps[..n] + [ps[n]];
      EmittedLast(PairText, ps[..n], ps[n]);
      Assoc(Emitted(PairText, ps[..n]), last, rest);
      PairLines(p, hash, ps[..n], last + rest);
      var kept := KeepShort(ps[..n]);
      var q := p.(sections := SetAll(p.sections, hash, p.header.value, kept));
      if Short(ps[n].key, ps[n].value) {
        PairLine(q, hash, ps[n], rest);
        SetAllLast(p.sections, hash, p.header.value, kept, ps[n]);
      } else {
        assert last + rest == rest && kept + [] == kept;
      }
    }
  }

  lemma SetAllLast(ss: seq<Section>, hash: string -> nat, name: string, ps: seq<Pair>, p: Pair)
    requires HasBuckets(ss)
    ensures SetAll(ss, hash, name, ps + [p]) == SetIn(SetAll(ss, hash, name, ps), hash, name, p.key, p.value)
  {
    hide SetIn;
    assert (ps + [p])[..|ps|] == ps;
  }

  lemma {:induction false} SetAllFresh(ss: seq<Section>, hash: string -> nat, name: string, ps: seq<Pair>)
    requires HasBuckets(ss) && forall s <- ss :: s.name != name
    ensures SetAll(ss, hash, name, ps) ==
            ss + if ps == [] then [] else [Section(name, PutAll(Empty(CAPACITY), hash, ps))]
    decreases |ps|
  {
    hide Put;
    if ps == [] {
      assert ss + [] == ss;
    } else {
      var n := |ps| - 1;
      SetAllFresh(ss, hash, name, ps[..n]);
      var front := SetAll(ss, hash, name, ps[..n]);
      FindSectionIs(front, name, |ss|);
    }
  }

  lemma FindSectionIs(ss: seq<Section>, name: string, i: nat)
    requires i <= |ss| && (i < |ss| ==> ss[i].name == name)
    requires forall j :: 0 <= j < i ==> ss[j].name != name
    ensures FindSection(ss, name) == i
  {
  }

  lemma SectionRebuilt(ss: seq<Section>, hash: string -> nat, s: Section)
    requires HasBuckets(ss) && GoodSection(s, hash)
    requires forall t <- ss :: t.name != s.name
    ensures SetAll(ss, hash, s.name, KeepShort(Pairs(s.buckets))) == ss + Prune([s])
  {
    PairsOfShort(s.buckets);
    SetAllFresh(ss, hash, s.name, KeepShort(Pairs(s.buckets)));
    ShortPlaced(s.buckets, hash);
    Rebuild(ShortBuckets(s.buckets), hash);
  }

  lemma SectionParse(p: Parse, hash: string -> nat, s: Section, rest: string)
    requires HasBuckets(p.sections) && HasBuckets(p.sections + Prune([s])) && GoodSection(s, hash)
    requires forall t <- p.sections :: t.name != s.name
    ensures ParseFrom(p, hash, SectionText(s) + rest) ==
            ParseFrom(Parse(p.sections + Prune([s]), Some(s.name)), hash, rest)
  {
    var ps := Pairs(s.buckets);
    var body := Emitted(PairText, ps);
    assert SectionText(s) + rest == HeaderText(s.name) + (body + ("\n" + rest));
    HeaderLine(p, hash, s.name, body + ("\n" + rest));
    PairLines(p.(header := Some(s.name)), hash, ps, "\n" + rest);
    SectionRebuilt(p.sections, hash, s);
    BlankLine(Parse(p.sections + Prune([s]), Some(s.name)), hash, rest);
  }

  ghost predicate Apart(ss: seq<Section>, ts: seq<Section>) {
    forall s <- ss, t <- ts :: s.name != t.name
  }

  lemma PruneOne(s: Section)
    ensures var b := ShortBuckets(s.buckets);
            Prune([s]) == if Pairs(b) == [] then [] else [Section(s.name, b)]
  {
  }

  lemma PruneCons(ss: seq<Section>)
    requires ss != []
    ensures Prune(ss) == Prune([ss[0]]) + Prune(ss[1..])
  {
  }

  /** What is left of a section keeps its name and capacity, so it stays apart from the sections to come. */
  lemma PruneApart(done: seq<Section>, hash: string -> nat, ss: seq<Section>)
    requires ss != [] && HasBuckets(done) && WellFormed(ss, hash) && Apart(done, ss)
    ensures HasBuckets(done + Prune([ss[0]])) && WellFormed(ss[1..], hash)
    ensures Apart(done + Prune([ss[0]]), ss[1..])
  {
    var kept := Prune([ss[0]]);
    assert GoodSection(ss[0], hash);
    PruneOne(ss[0]);
    forall s, t | s in done + kept && t in ss[1..]
      ensures s.name != t.name
    {
      assert t in ss;
    }
  }

  lemma SaveStep(p: Parse, hash: string -> nat, ss: seq<Section>, done: seq<Section>)
    requires ss != [] && HasBuckets(p.sections) && WellFormed(ss, hash) && Apart(p.sections, ss)
    requires done == p.sections + Prune([ss[0]])
    ensures HasBuckets(done) && WellFormed(ss[1..], hash) && Apart(done, ss[1..])
    ensures p.sections + Prune(ss) == done + Prune(ss[1..])
    ensures ParseFrom(p, hash, Save(ss)) ==
            ParseFrom(Parse(done, Some(ss[0].name)), hash, Save(ss[1..]))
  {
    hide ParseFrom;
    hide Save;
    hide GoodSection;
    hide Prune;
    PruneApart(p.sections, hash, ss);
    assert p.sections + Prune(ss) == done + Prune(ss[1..]) by {
      PruneCons(ss);
    }
    SectionSaved(p, hash, ss, done);
  }

  lemma SectionSaved(p: Parse, hash: string -> nat, ss: seq<Section>, done: seq<Section>)
    requires ss != [] && HasBuckets(p.sections) && GoodSection(ss[0], hash)
    requires forall t <- p.sections :: t.name != ss[0].name
    requires done == p.sections + Prune([ss[0]]) && HasBuckets(done)
    ensures ParseFrom(p, hash, Save(ss)) ==
            ParseFrom(Parse(done, Some(ss[0].name)), hash, Save(ss[1..]))
  {
    SectionParse(p, hash, ss[0], Save(ss[1..]));
  }

  lemma {:induction false} SaveParse(p: Parse, hash: string -> nat, ss: seq<Section>)
    requires HasBuckets(p.sections) && WellFormed(ss, hash) && Apart(p.sections, ss)
    ensures ParseFrom(p, hash, Save(ss)).Some?
    ensures ParseFrom(p, hash, Save(ss)).value.sections == p.sections + Prune(ss)
    decreases |ss|
  {
    if ss != [] {
      var done := p.sections + Prune([ss[0]]);
      SaveStep(p, hash, ss, done);
      SaveParse(Parse(done, Some(ss[0].name)), hash, ss[1..]);
    }
  }

  // ---------- Main results ----------

  /** Section lines fit the line buffer exactly when no name is longer than the buffer less four characters. */
  lemma HeadersFitIs(ss: seq<Section>)
    ensures HeadersFit(ss) <==> forall s <- ss :: |s.name| <= 16380
  {
  }

  lemma AllShortIs(ss: seq<Section>)
    ensures AllShort(ss) <==> forall s <- ss, p <- Pairs(s.buckets) :: |p.key| < 256 && |p.value| < 256
  {
    hide Pairs;
    if AllShort(ss) {
      forall s, p | s in ss && p in Pairs(s.buckets)
        ensures |p.key| < 256 && |p.value| < 256
      {
        assert ShortPairs(Pairs(s.buckets));
      }
    }
  }

  /** Loading what was saved gives the settings back, bucket for bucket, without the pairs that are too long to
      print and the sections these leave empty: a key has its value if both have fewer than 256 characters, and
      none otherwise. It is printed exactly when no section name is too long. */
  lemma LoadOfSave(ss: seq<Section>, hash: string -> nat)
    requires WellFormed(ss, hash)
    ensures HasBuckets(ss) && HasBuckets(Prune(ss))
    ensures Load(Save(ss), hash) == Some(Prune(ss))
    ensures forall name, key ::
              var v := ValueIn(ss, hash, name, key);
              ValueIn(Load(Save(ss), hash).value, hash, name, key) ==
              if v.Some? && |key| < 256 && |v.value| < 256 then v else None
    ensures Print(ss) == if forall s <- ss :: |s.name| <= 16380 then Some(Save(ss)) else None
  {
    hide ValueIn;
    hide Prune;
    SaveParse(Parse([], None), hash, ss);
    assert [] + Prune(ss) == Prune(ss);
    HeadersFitIs(ss);
    assert forall s <- ss :: GoodSection(s, hash) && WellPlaced(s.buckets, hash);
    PruneValue(ss, hash, "", "");
    forall name, key
      ensures ValueIn(Prune(ss), hash, name, key) == ShortOnly(key, ValueIn(ss, hash, name, key))
    {
      PruneValue(ss, hash, name, key);
    }
  }

  /** Printing and parsing is the identity on exactly the well-formed settings with keys and values of fewer than
      256 characters whose section lines fit the line buffer. */
  lemma RoundTrip(ss: seq<Section>, hash: string -> nat)
    ensures Print(ss).Some? && Load(Print(ss).value, hash) == Some(ss) <==>
            && WellFormed(ss, hash)
            && (forall s <- ss, p <- Pairs(s.buckets) :: |p.key| < 256 && |p.value| < 256)
            && forall s <- ss :: |s.name| <= 16380
  {
    hide Load;
    hide Pairs;
    HeadersFitIs(ss);
    AllShortIs(ss);
    LoadWellFormed(Save(ss), hash);
    if WellFormed(ss, hash) {
      LoadOfSave(ss, hash);
      PruneOfLoaded(ss, hash);
    }
  }

  /** For every text that loads: it is printed exactly when no section name is too long. Loading the printed text
      gives the same settings exactly when every key and value is short, and what is printed then is printed
      again byte for byte. */
  lemma Normalisation(text: string, hash: string -> nat)
    requires Load(text, hash).Some?
    ensures var ss := Load(text, hash).value;
            && (Print(ss).Some? <==> forall s <- ss :: |s.name| <= 16380)
            && (Print(ss).Some? ==>
                  && Load(Print(ss).value, hash) == Some(Prune(ss))
                  && (Load(Print(ss).value, hash) == Some(ss) <==>
                        forall s <- ss, p <- Pairs(s.buckets) :: |p.key| < 256 && |p.value| < 256)
                  && Print(Prune(ss)).Some? && Load(Print(Prune(ss)).value, hash) == Some(Prune(ss)))
  {
    hide Load;
    hide Prune;
    hide Pairs;
    hide WellFormed;
    var ss := Load(text, hash).value;
    HeadersFitIs(ss);
    LoadWellFormed(text, hash);
    LoadOfSave(ss, hash);
    PruneOfLoaded(ss, hash);
    AllShortIs(ss);
    LoadWellFormed(Save(ss), hash);
    LoadOfSave(Prune(ss), hash);
    PruneNames(ss);
    PruneShort(ss);
    PruneOfLoaded(Prune(ss), hash);
  }

  lemma PruneOfLoaded(ss: seq<Section>, hash: string -> nat)
    requires WellFormed(ss, hash)
    ensures Prune(ss) == ss <==> AllShort(ss)
  {
    PruneFixed(ss);
  }

  lemma {:induction false} PruneNames(ss: seq<Section>)
    ensures HeadersFit(ss) ==> HeadersFit(Prune(ss))
  {
    if ss != [] {
      PruneNames(ss[1..]);
    }
  }

  /** A section name one character longer than the buffer allows: there are settings that a text describes and
      that would load back from their own text, but whose section line is one too long to be printed. */
  lemma LongNameLoads(hash: string -> nat) returns (ss: seq<Section>)
    ensures |ss| == 1 && |ss[0].name| == 16381
    ensures Load(Save(ss), hash) == Some(ss) && Print(ss) == None
  {
    hide Load;
    var name := seq(MAX_LINECHARS - 3, i => 'a');
    var b := OnePair(hash);
    ss := [Section(name, b)];
    assert ss[0] in ss;
    OneSection(ss[0], hash);
    LoadOfSave(ss, hash);
    PruneFixed(ss);
  }

  lemma OnePair(hash: string -> nat) returns (b: seq<Bucket>)
    ensures |b| == CAPACITY && WellPlaced(b, hash) && Pairs(b) != []
    ensures forall p <- Pairs(b) :: p == Pair("k", "v")
  {
    hide WellPlaced;
    var none := Empty(CAPACITY);
    EmptyIsEmpty(CAPACITY, hash);
    b := Put(none, hash, "k", "v");
    PutRefines(none, hash, "k", "v");
    EnumeratesMap(b, hash);
    assert Pair("k", "v") in Pairs(b);
    forall p | p in Pairs(b)
      ensures p == Pair("k", "v")
    {
      assert Pair(p.key, p.value) in Pairs(b);
    }
  }

  lemma OneSection(s: Section, hash: string -> nat)
    requires |s.name| == MAX_LINECHARS - 3 && (forall c <- s.name :: c == 'a')
    requires |s.buckets| == CAPACITY && WellPlaced(s.buckets, hash) && Pairs(s.buckets) != []
    requires forall p <- Pairs(s.buckets) :: p == Pair("k", "v")
    ensures WellFormed([s], hash) && AllShort([s])
  {
  }

  lemma {:induction false} PruneShort(ss: seq<Section>)
    ensures AllShort(Prune(ss))
  {
    if ss != [] {
      PruneShort(ss[1..]);
      PairsOfShort(ss[0].buckets);
      KeepShortKeeps(Pairs(ss[0].buckets));
    }
  }
}
