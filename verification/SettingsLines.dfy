/** The lines of a settings text character by character: what each form of line does when it is read,
    and which lines a settings object prints. */
module SettingsLines {
  import opened Options
  import opened Seqs
  import opened CStrings
  import opened HashTable
  import opened StrMaps
  import opened SettingsText
  import opened SettingsRoundTrip
  import opened SettingsMeaning

  // ---------- Reading ----------

  predicate Blanks(s: string) {
    forall c <- s :: c == ' ' || c == '\t' || c == '\r'
  }

  /** No blank, tab or line end at either end. */
  predicate Bare(s: string) {
    s == "" || (s[0] !in " \t\r\n" && s[|s| - 1] !in " \t\r\n")
  }

  /** Text of a single line that one read takes whole. */
  predicate OneRead(line: string) {
    '\0' !in line && '\n' !in line && |line| < 16383
  }

  /** `text` is a line and what follows it; the last line of a text may have no newline. */
  predicate Begins(text: string, line: string, rest: string) {
    text == line + "\n" + rest || (text == line && line != "" && rest == "")
  }

  /** A key with or without a value: the line is neither a comment nor a header. */
  predicate KeyOf(line: string, key: string) {
    key != "" && Bare(key) && '=' !in key && key[0] != '#' && (key[0] == '[' ==> ']' !in line)
  }

  /** What reading on after a line depends on. */
  ghost predicate ReadsAs(p: Parse, hash: string -> nat, text: string, q: Option<Parse>, rest: string)
    requires HasBuckets(p.sections)
  {
    && (q.Some? ==> HasBuckets(q.value.sections))
    && ParseFrom(p, hash, text) == if q == None then None else ParseFrom(q.value, hash, rest)
  }

  lemma TrimBare(a: string, t: string, d: string)
    requires Blanks(a) && Blanks(d) && Bare(t)
    ensures Trim(a + t + d) == t
    ensures Trim(a + t + d + "\n") == t
  {
    TrimIs(a, t, d);
    TrimIs(a, t, d + "\n");
    assert a + t + d + "\n" == a + t + (d + "\n");
  }

  /** A line is read for what it is without the blanks around it. */
  lemma LineRead(p: Parse, hash: string -> nat, text: string, a: string, t: string, d: string, rest: string)
    requires HasBuckets(p.sections) && Blanks(a) && Blanks(d) && Bare(t)
    requires OneRead(a + t + d) && Begins(text, a + t + d, rest)
    ensures ReadsAs(p, hash, text, Step(p, hash, ReadLine(t)), rest)
  {
    hide Step;
    hide ReadLine;
    hide Trim;
    var line := a + t + d;
    TrimBare(a, t, d);
    if text == line + "\n" + rest {
      LineTaken(line, rest);
    } else {
      IndexOfIs(text, '\n', |text|);
      CStringPlain(line);
      assert text[..|text|] == line && text[|text|..] == rest;
      assert FirstLine(text) == ReadLine(t);
      FollowsNothing(p, hash, text);
    }
  }

  lemma FollowsNothing(p: Parse, hash: string -> nat, text: string)
    requires HasBuckets(p.sections) && text != "" && ChunkLen(text) == |text|
    ensures ReadsAs(p, hash, text, Step(p, hash, FirstLine(text)), "")
  {
    hide Step;
    assert text[|text|..] == "";
  }

  /** `key = value` under a header with a name gives the key of that section the value, and changes nothing else.
      Blanks, tabs and carriage returns may stand around key and value. */
  lemma AssignmentLine(p: Parse, hash: string -> nat, text: string, a: string, key: string, b: string, c: string,
                       value: string, d: string, rest: string)
    returns (q: Parse)
    requires Placed(p.sections, hash) && p.header.Some? && p.header.value != ""
    requires Blanks(a) && Blanks(b) && Blanks(c) && Blanks(d) && Bare(value)
    requires var line := a + key + b + "=" + c + value + d;
             KeyOf(line, key) && OneRead(line) && Begins(text, line, rest)
    ensures ReadsAs(p, hash, text, Some(q), rest) && Stored(p, hash, p.header.value, key, value, q)
  {
    hide ParseFrom;
    hide SetIn;
    hide ReadLine;
    q := p.(sections := SetIn(p.sections, hash, p.header.value, key, value));
    SetInValue(p.sections, hash, p.header.value, key, value);
    AssignmentRead(a, key, b, c, value, d);
    var t := key + b + "=" + if value == "" then "" else c + value;
    LineRead(p, hash, text, a, t, if value == "" then c + d else d, rest);
  }

  lemma AssignmentRead(a: string, key: string, b: string, c: string, value: string, d: string)
    requires Blanks(a) && Blanks(b) && Blanks(c) && Blanks(d) && Bare(value)
    requires KeyOf(a + key + b + "=" + c + value + d, key)
    ensures var t := key + b + "=" + if value == "" then "" else c + value;
            && Bare(t) && ReadLine(t) == Entry(key, value)
            && a + t + (if value == "" then c + d else d) == a + key + b + "=" + c + value + d
  {
    hide ReadLine;
    assert Blanks("");
    hide Blanks;
    var line := a + key + b + "=" + c + value + d;
    var c' := if value == "" then "" else c;
    var t := key + b + "=" + c' + value;
    assert t == key + b + "=" + if value == "" then "" else c + value;
    assert line == a + t + if value == "" then c + d else d;
    assert forall x <- t :: x in line;
    EntryRead(key, b, c', value);
  }

  /** The key has the value now; every other key of every section has what it had; a new section is the last. */
  ghost predicate Stored(p: Parse, hash: string -> nat, name: string, key: string, value: string, q: Parse)
    requires HasBuckets(p.sections)
  {
    && Placed(q.sections, hash) && q.header == p.header
    && Names(q.sections) == (if name in Names(p.sections) then Names(p.sections) else Names(p.sections) + [name])
    && forall n, k :: ValueIn(q.sections, hash, n, k) ==
                      if n == name && k == key then Some(value) else ValueIn(p.sections, hash, n, k)
  }

  lemma FirstAt(u: string, c: char, w: string)
    requires c !in u
    ensures var s := u + [c] + w; IndexOf(s, c) == |u| && s[..|u|] == u && s[|u| + 1..] == w
  {
    var s := u + [c] + w;
    assert forall j :: 0 <= j < |u| ==> s[j] == u[j] && u[j] in u;
    IndexOfIs(s, c, |u|);
  }

  lemma EntryRead(key: string, b: string, c: string, value: string)
    requires KeyOf(key + b + "=" + c + value, key)
    requires Blanks(b) && Blanks(c) && Bare(value) && (value == "" ==> c == "")
    ensures ReadLine(key + b + "=" + c + value) == Entry(key, value)
    ensures Bare(key + b + "=" + c + value)
  {
    hide IndexOf;
    hide DropTrailing;
    hide DropLeading;
    var u, w := key + b, c + value;
    var s := u + "=" + w;
    assert key + b + "=" + c + value == s;
    assert s[0] == key[0] && s[|s| - 1] == if value == "" then '=' else value[|value| - 1];
    assert '=' !in b;
    FirstAt(u, '=', w);
    DropTrailingIs(key, b);
    DropLeadingIs(c, value);
    EntryOf(s, |u|);
  }

  lemma EntryOf(s: string, i: nat)
    requires s != "" && !Blank(s[0]) && s[0] != '#' && (s[0] == '[' ==> ']' !in s) && IndexOf(s, '=') == i
    requires 0 < i < |s|
    ensures ReadLine(s) == Entry(DropTrailing(s[..i]), DropLeading(s[i + 1..]))
  {
    assert s[0] in s;
  }

  /** A key alone gets the empty value. */
  lemma KeyLine(p: Parse, hash: string -> nat, text: string, a: string, key: string, d: string, rest: string)
    returns (q: Parse)
    requires Placed(p.sections, hash) && p.header.Some? && p.header.value != ""
    requires Blanks(a) && Blanks(d)
    requires KeyOf(a + key + d, key) && OneRead(a + key + d) && Begins(text, a + key + d, rest)
    ensures ReadsAs(p, hash, text, Some(q), rest) && Stored(p, hash, p.header.value, key, "", q)
  {
    hide ParseFrom;
    hide SetIn;
    q := p.(sections := SetIn(p.sections, hash, p.header.value, key, ""));
    SetInValue(p.sections, hash, p.header.value, key, "");
    KeyRead(key, a + key + d);
    hide ReadLine;
    LineRead(p, hash, text, a, key, d, rest);
  }

  lemma KeyRead(key: string, line: string)
    requires KeyOf(line, key) && forall c <- key :: c in line
    ensures ReadLine(key) == Entry(key, "")
  {
    assert key[0] in key;
    IndexOfIs(key, '=', |key|);
    if key[0] == '[' {
      IndexOfIs(key, ']', |key|);
    }
  }

  /** Without a header, or under one without a name, a text with a key on a line is refused. */
  lemma KeyWithoutHeader(p: Parse, hash: string -> nat, text: string, a: string, key: string, b: string, c: string,
                         value: string, d: string, rest: string)
    requires HasBuckets(p.sections) && (p.header == None || p.header == Some(""))
    requires Blanks(a) && Blanks(b) && Blanks(c) && Blanks(d) && Bare(value)
    requires var line := a + key + b + "=" + c + value + d;
             || (KeyOf(line, key) && OneRead(line) && Begins(text, line, rest))
             || (KeyOf(a + key + d, key) && OneRead(a + key + d) && Begins(text, a + key + d, rest))
    ensures ParseFrom(p, hash, text) == None
  {
    hide ParseFrom;
    var line := a + key + b + "=" + c + value + d;
    if KeyOf(line, key) && OneRead(line) && Begins(text, line, rest) {
      AssignmentRead(a, key, b, c, value, d);
      hide ReadLine;
      var t := key + b + "=" + if value == "" then "" else c + value;
      LineRead(p, hash, text, a, t, if value == "" then c + d else d, rest);
    } else {
      KeyRead(key, a + key + d);
      hide ReadLine;
      LineRead(p, hash, text, a, key, d, rest);
    }
  }

  /** `[name]` is the header of the lines that follow, whatever else stands behind it on its line. */
  lemma SectionLine(p: Parse, hash: string -> nat, text: string, a: string, name: string, more: string, rest: string)
    requires HasBuckets(p.sections) && Blanks(a) && ']' !in name
    requires var line := a + "[" + name + "]" + more; OneRead(line) && Begins(text, line, rest)
    ensures ReadsAs(p, hash, text, Some(p.(header := Some(name))), rest)
  {
    hide ParseFrom;
    var t, d := SplitEnd("[" + name + "]", more);
    assert a + ("[" + name + "]" + t) + d == a + "[" + name + "]" + more;
    HeaderRead(name, t);
    hide ReadLine;
    LineRead(p, hash, text, a, "[" + name + "]" + t, d, rest);
  }

  /** The blanks at the end of a line, apart from what stands before them. */
  lemma SplitEnd(front: string, more: string) returns (t: string, d: string)
    requires Bare(front) && front != "" && '\n' !in more
    ensures more == t + d && Blanks(d) && Bare(front + t)
  {
    DropTrailingSplit(more);
    t := DropTrailing(more);
    d :| AllBlank(d) && more == t + d;
    assert forall c <- d :: c in more;
    assert t != "" ==> (front + t)[|front + t| - 1] == t[|t| - 1];
    assert t == "" ==> front + t == front;
  }

  lemma HeaderRead(name: string, t: string)
    requires ']' !in name
    ensures ReadLine("[" + name + "]" + t) == Header(name)
  {
    var s := "[" + name + "]" + t;
    FirstAt("[" + name, ']', t);
    assert s[1..|name| + 1] == name;
    assert s[0] in s;
  }

  /** A line that starts with `=` makes the parser refuse the text. */
  lemma NamelessLine(p: Parse, hash: string -> nat, text: string, a: string, more: string, rest: string)
    requires HasBuckets(p.sections) && Blanks(a)
    requires var line := a + "=" + more; OneRead(line) && Begins(text, line, rest)
    ensures ParseFrom(p, hash, text) == None
  {
    hide ParseFrom;
    var t, d := SplitEnd("=", more);
    assert a + ("=" + t) + d == a + "=" + more;
    assert ("=" + t)[0] == '=' && '=' in "=" + t;
    LineRead(p, hash, text, a, "=" + t, d, rest);
  }

  /** A comment changes nothing. */
  lemma CommentLine(p: Parse, hash: string -> nat, text: string, a: string, more: string, rest: string)
    requires HasBuckets(p.sections) && Blanks(a)
    requires var line := a + "#" + more; OneRead(line) && Begins(text, line, rest)
    ensures ReadsAs(p, hash, text, Some(p), rest)
  {
    hide ParseFrom;
    var t, d := SplitEnd("#", more);
    assert a + ("#" + t) + d == a + "#" + more;
    LineRead(p, hash, text, a, "#" + t, d, rest);
  }

  /** Neither does a line of blanks. */
  lemma LineOfBlanks(p: Parse, hash: string -> nat, text: string, a: string, rest: string)
    requires HasBuckets(p.sections) && Blanks(a) && OneRead(a) && Begins(text, a, rest)
    ensures ReadsAs(p, hash, text, Some(p), rest)
  {
    hide ParseFrom;
    assert a + "" + "" == a;
    LineRead(p, hash, text, a, "", "", rest);
  }

  /** Of a line with a terminator in it only the part before the terminator is read. */
  lemma TerminatedLine(p: Parse, hash: string -> nat, line: string, more: string, rest: string)
    requires HasBuckets(p.sections)
    requires OneRead(line) && '\n' !in more && |line| + 1 + |more| < 16383
    ensures ParseFrom(p, hash, line + "\0" + more + "\n" + rest) == ParseFrom(p, hash, line + "\n" + rest)
  {
    hide Step;
    hide ReadLine;
    hide Trim;
    var whole := line + "\0" + more;
    var text := whole + "\n" + rest;
    FirstAt(whole, '\n', rest);
    assert text[..|whole| + 1] == whole + "\n";
    CStringIs(whole + "\n", |line|);
    assert (whole + "\n")[..|line|] == line;
    LineTaken(line, rest);
    TrimSplit(line);
    var a, b :| AllBlank(a) && AllBlank(b) && line == a + Trim(line) + b;
    TrimIs(a, Trim(line), b + "\n");
    assert line + "\n" == a + Trim(line) + (b + "\n");
  }

  /** A longer line is read in pieces of 16383 characters, each as a line of its own. */
  lemma LongLine(p: Parse, hash: string -> nat, piece: string, rest: string)
    requires HasBuckets(p.sections) && |piece| == 16383 && '\n' !in piece
    ensures ReadsAs(p, hash, piece + rest, ParseFrom(p, hash, piece), rest)
  {
    hide Step;
    var text := piece + rest;
    assert forall j :: 0 <= j < 16383 ==> text[j] == piece[j] && piece[j] in piece;
    IndexOfIs(piece, '\n', |piece|);
    assert IndexOf(text, '\n') >= 16383;
    assert text[..16383] == piece == piece[..16383] && text[16383..] == rest && piece[16383..] == "";
  }

  // ---------- Printing ----------

  /** Keys and values, a line for each pair. */
  function KeyLines(ps: seq<Pair>): string {
    if ps == [] then "" else ps[0].key + "=" + ps[0].value + "\n" + KeyLines(ps[1..])
  }

  lemma {:induction false} KeyLinesSnoc(ps: seq<Pair>, p: Pair)
    ensures KeyLines(ps + [p]) == KeyLines(ps) + (p.key + "=" + p.value + "\n")
  {
    var line := p.key + "=" + p.value + "\n";
    if ps == [] {
      assert [p][1..] == [];
      assert KeyLines([p]) == line + "";
      assert [] + [p] == [p];
    } else {
      KeyLinesSnoc(ps[1..], p);
      assert (ps + [p])[1..] == ps[1..] + [p];
      Assoc(ps[0].key + "=" + ps[0].value + "\n", KeyLines(ps[1..]), line);
    }
  }

  lemma {:induction false} EmittedLines(ps: seq<Pair>)
    ensures Emitted(PairText, ps) == KeyLines(KeepShort(ps))
  {
    if ps != [] {
      var n := |ps| - 1;
      EmittedLines(ps[..n]);
      KeyLinesSnoc(KeepShort(ps[..n]), ps[n]);
      assert KeepShort(ps[..n]) + [] == KeepShort(ps[..n]);
    }
  }

  /** A section prints as its header, then one line for each of its keys whose value is short enough, each key
      once, then an empty line. */
  lemma PrintedSection(s: Section, hash: string -> nat) returns (ps: seq<Pair>)
    requires |s.buckets| > 0 && WellPlaced(s.buckets, hash)
    ensures SectionText(s) == "[" + s.name + "]\n" + KeyLines(ps) + "\n"
    ensures forall i, j :: 0 <= i < j < |ps| ==> ps[i].key != ps[j].key
    ensures forall k, v :: Pair(k, v) in ps <==>
              Lookup(s.buckets, hash, k) == Some(v) && |k| < 256 && |v| < 256
  {
    hide WellPlaced;
    hide Pairs;
    hide Lookup;
    ps := KeepShort(Pairs(s.buckets));
    EnumeratesMap(s.buckets, hash);
    KeepShortKeeps(Pairs(s.buckets));
    EmittedLines(Pairs(s.buckets));
    forall k, v
      ensures Pair(k, v) in ps <==> Lookup(s.buckets, hash, k) == Some(v) && |k| < 256 && |v| < 256
    {
      LookupRefines(s.buckets, hash, k);
    }
  }

  /** Settings print as their sections, one after the other. */
  lemma {:induction false} PrintedSections(ss: seq<Section>)
    ensures Save(ss) == Flatten(seq(|ss|, i requires 0 <= i < |ss| => SectionText(ss[i])))
  {
    hide SectionText;
    if ss != [] {
      PrintedSections(ss[1..]);
      var rest := seq(|ss| - 1, i requires 0 <= i < |ss| - 1 => SectionText(ss[1..][i]));
      FlattenCons(SectionText(ss[0]), rest);
      assert seq(|ss|, i requires 0 <= i < |ss| => SectionText(ss[i])) == [SectionText(ss[0])] + rest;
    }
  }
}
