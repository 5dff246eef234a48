/** What a settings text means, line by line, and what a settings object prints as (settings.c on values). */
module SettingsText {
  import opened Options
  import opened CStrings
  import opened HashTable
  import opened StrMaps

  const MAX_LINECHARS: nat := 16384
  const MAX_KEYCHARS: nat := 256
  const MAX_VALUECHARS: nat := 256
  const CAPACITY: nat := 256

  // ---------- Characters and words ----------

  predicate Blank(c: char) {
    c == ' ' || c == '\t' || c == '\r' || c == '\n'
  }

  predicate AllBlank(s: string) {
    forall c <- s :: Blank(c)
  }

  function DropLeading(s: string): string {
    if s != [] && Blank(s[0]) then DropLeading(s[1..]) else s
  }

  function DropTrailing(s: string): string {
    if s != [] && Blank(s[|s| - 1]) then DropTrailing(s[..|s| - 1]) else s
  }

  function Trim(s: string): string {
    DropTrailing(DropLeading(s))
  }

  /** No blank at either end. */
  predicate Tight(s: string) {
    s == [] || (!Blank(s[0]) && !Blank(s[|s| - 1]))
  }

  /** Position of the first `c`, or the length of the text. */
  function IndexOf(s: string, c: char): (i: nat)
    ensures i <= |s|
    ensures i < |s| ==> s[i] == c
    ensures forall j :: 0 <= j < i ==> s[j] != c
  {
    if s == [] || s[0] == c then 0 else 1 + IndexOf(s[1..], c)
  }

  lemma IndexOfIs(s: string, c: char, i: nat)
    requires i <= |s| && (i < |s| ==> s[i] == c)
    requires forall j :: 0 <= j < i ==> s[j] != c
    ensures IndexOf(s, c) == i
  {
  }

  lemma {:induction false} DropLeadingSplit(s: string)
    ensures exists a :: AllBlank(a) && s == a + DropLeading(s)
    ensures DropLeading(s) == [] || !Blank(DropLeading(s)[0])
  {
    if s != [] && Blank(s[0]) {
      DropLeadingSplit(s[1..]);
      var a :| AllBlank(a) && s[1..] == a + DropLeading(s[1..]);
      assert s == ([s[0]] + a) + DropLeading(s);
    } else {
      var none := "";
      assert AllBlank(none) && s == none + s;
    }
  }

  lemma {:induction false} DropTrailingSplit(s: string)
    ensures exists b :: AllBlank(b) && s == DropTrailing(s) + b
    ensures DropTrailing(s) == [] || !Blank(DropTrailing(s)[|DropTrailing(s)| - 1])
  {
    if s != [] && Blank(s[|s| - 1]) {
      var n := |s| - 1;
      DropTrailingSplit(s[..n]);
      var b :| AllBlank(b) && s[..n] == DropTrailing(s[..n]) + b;
      assert s == DropTrailing(s) + (b + [s[n]]);
    } else {
      var none := "";
      assert AllBlank(none) && s == s + none;
    }
  }

  /** Trimming removes blanks at the ends and nothing else. */
  lemma TrimSplit(s: string)
    ensures Tight(Trim(s))
    ensures exists a, b :: AllBlank(a) && AllBlank(b) && s == a + Trim(s) + b
  {
    DropLeadingSplit(s);
    var t := DropLeading(s);
    DropTrailingSplit(t);
    var a :| AllBlank(a) && s == a + t;
    var b :| AllBlank(b) && t == Trim(s) + b;
    assert s == a + Trim(s) + b;
    assert Trim(s) != [] ==> Trim(s)[0] == t[0];
  }

  lemma {:induction false} DropLeadingIs(a: string, s: string)
    requires AllBlank(a) && (s == [] || !Blank(s[0]))
    ensures DropLeading(a + s) == s
  {
    if a == [] {
      assert a + s == s;
    } else {
      assert (a + s)[1..] == a[1..] + s;
      DropLeadingIs(a[1..], s);
    }
  }

  lemma {:induction false} DropTrailingIs(s: string, b: string)
    requires AllBlank(b) && (s == [] || !Blank(s[|s| - 1]))
    ensures DropTrailing(s + b) == s
    decreases |b|
  {
    if b == [] {
      assert s + b == s;
    } else {
      var n := |b| - 1;
      assert (s + b)[..|s| + n] == s + b[..n];
      DropTrailingIs(s, b[..n]);
    }
  }

  /** The trimmed text is the only one that can be had this way. */
  lemma TrimIs(a: string, t: string, b: string)
    requires AllBlank(a) && AllBlank(b) && Tight(t)
    ensures Trim(a + t + b) == t
  {
    if t == [] {
      assert AllBlank(a + b);
      assert a + t + b == (a + b) + [];
      DropLeadingIs(a + b, []);
    } else {
      assert a + t + b == a + (t + b);
      DropLeadingIs(a, t + b);
      DropTrailingIs(t, b);
    }
  }

  // ---------- Lines ----------

  datatype Line =
    | Skip                                  // empty, blank or a comment
    | Header(name: string)                  // [name]
    | Entry(key: string, value: string)     // key=value, or a key alone
    | Bad

  /** What a trimmed line says. */
  function ReadLine(s: string): Line {
    if s == "" || AllBlank(s) || s[0] == '#' then Skip
    else if s[0] == '[' && IndexOf(s, ']') < |s| then Header(s[1..IndexOf(s, ']')])
    else if s[0] == '=' then Bad
    else if IndexOf(s, '=') < |s| then
      Entry(DropTrailing(s[..IndexOf(s, '=')]), DropLeading(s[IndexOf(s, '=') + 1..]))
    else Entry(s, "")
  }

  /** How many characters one `fgets` takes: up to and including a newline, at most a buffer full. */
  function ChunkLen(text: string): (n: nat)
    requires text != ""
    ensures 0 < n <= |text| && n <= MAX_LINECHARS - 1
  {
    var i := IndexOf(text, '\n');
    var n := if i < |text| then i + 1 else i;
    if n < MAX_LINECHARS then n else MAX_LINECHARS - 1
  }

  /** The line a text starts with. */
  function FirstLine(text: string): Line
    requires text != ""
  {
    ReadLine(Trim(CString(text[..ChunkLen(text)])))
  }

  function Lines(text: string): seq<Line> {
    if text == "" then [] else [FirstLine(text)] + Lines(text[ChunkLen(text)..])
  }

  // ---------- Settings on values ----------

  datatype Section = Section(name: string, buckets: seq<Bucket>)

  function FindSection(ss: seq<Section>, name: string): (i: nat)
    ensures i <= |ss|
    ensures i < |ss| ==> ss[i].name == name
    ensures forall j :: 0 <= j < i ==> ss[j].name != name
  {
    if ss == [] || ss[0].name == name then 0 else 1 + FindSection(ss[1..], name)
  }

  /** Stores a pair in a section, opening the section at the end if it is new. */
  function SetIn(ss: seq<Section>, hash: string -> nat, name: string, key: string, value: string): seq<Section>
    requires forall s <- ss :: |s.buckets| > 0
  {
    var i := FindSection(ss, name);
    if i < |ss| then ss[i := ss[i].(buckets := Put(ss[i].buckets, hash, key, value))]
    else ss + [Section(name, Put(Empty(CAPACITY), hash, key, value))]
  }

  predicate HasBuckets(ss: seq<Section>) {
    forall s <- ss :: |s.buckets| > 0
  }

  /** The value of a key in a section, if any. */
  function ValueIn(ss: seq<Section>, hash: string -> nat, name: string, key: string): Option<string>
    requires HasBuckets(ss)
  {
    var i := FindSection(ss, name);
    if i < |ss| then Lookup(ss[i].buckets, hash, key) else None
  }

  /** How far a parse has come: the sections so far and the header last seen. */
  datatype Parse = Parse(sections: seq<Section>, header: Option<string>)

  function Step(p: Parse, hash: string -> nat, line: Line): (q: Option<Parse>)
    requires HasBuckets(p.sections)
    ensures q.Some? ==> HasBuckets(q.value.sections)
  {
    match line
    case Skip => Some(p)
    case Header(name) => Some(p.(header := Some(name)))
    case Bad => None
    case Entry(key, value) =>
      if p.header == None || p.header.value == "" then None
      else Some(p.(sections := SetIn(p.sections, hash, p.header.value, key, value)))
  }

  function ParseFrom(p: Parse, hash: string -> nat, text: string): (q: Option<Parse>)
    requires HasBuckets(p.sections)
    ensures q.Some? ==> HasBuckets(q.value.sections)
    decreases |text|
  {
    if text == "" then Some(p)
    else match Step(p, hash, FirstLine(text))
         case None => None
         case Some(q) => ParseFrom(q, hash, text[ChunkLen(text)..])
  }

  /** The settings a text holds, or none if some line is refused. */
  function Load(text: string, hash: string -> nat): Option<seq<Section>> {
    match ParseFrom(Parse([], None), hash, text)
    case None => None
    case Some(p) => Some(p.sections)
  }

  // ---------- Printing ----------

  predicate Short(key: string, value: string) {
    |key| < MAX_KEYCHARS && |value| < MAX_VALUECHARS
  }

  /** One printed pair; pairs too long for the parser's historical limits are left out. */
  function PairText(key: string, value: string): string {
    if Short(key, value) then key + "=" + value + "\n" else ""
  }

  function HeaderText(name: string): string {
    "[" + name + "]\n"
  }

  function SectionText(s: Section): string {
    HeaderText(s.name) + Emitted(PairText, Pairs(s.buckets)) + "\n"
  }

  function Save(ss: seq<Section>): string {
    if ss == [] then "" else SectionText(ss[0]) + Save(ss[1..])
  }

  /** Every section line fits the buffer it is printed through, with its terminator. */
  predicate HeadersFit(ss: seq<Section>) {
    forall s <- ss :: |HeaderText(s.name)| < MAX_LINECHARS
  }

  /** The text that is printed, if the line buffer holds every section line. */
  function Print(ss: seq<Section>): Option<string> {
    if HeadersFit(ss) then Some(Save(ss)) else None
  }
}
