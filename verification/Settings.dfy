/** The Settings object of settings.c: named string maps, filled line by line from a text and printed back. */
module SettingsObjects {
  import opened Options
  import opened CStrings
  import opened HashTable
  import opened StrMaps
  import opened SettingsText
  import opened SettingsScan
  import SettingsRoundTrip

  datatype NamedMap = NamedMap(name: string, table: StrMap)

  /** The parser's memory between lines. */
  class ParseState {
    var currentSection: string
    const currentSectionSize: nat
    var hasSection: bool

    constructor (size: nat)
      ensures currentSection == "" && !hasSection && currentSectionSize == size
    {
      currentSection, currentSectionSize, hasSection := "", size, false;
    }

    ghost function Header(): Option<string>
      reads this
    {
      if hasSection then Some(currentSection) else None
    }
  }

  class Settings {
    const hash: string -> nat
    var sections: seq<NamedMap>

    ghost var View: seq<Section>  // the sections in order, each with its buckets
    ghost var Repr: set<object>   // the arrays of the section maps

    ghost predicate Valid()
      reads this, Repr
    {
      && this !in Repr
      && |View| == |sections| && HasBuckets(View)
      && (forall i :: 0 <= i < |sections| ==> MapAt(i))
      && (forall i, j :: 0 <= i < j < |sections| ==>
            && sections[i].name != sections[j].name
            && sections[i].table.Footprint() !! sections[j].table.Footprint())
    }

    ghost predicate MapAt(i: nat)
      requires i < |sections| == |View|
      reads this, Repr
    {
      var m := sections[i].table;
      && m.buckets in Repr && m.rooms in Repr
      && m.Valid() && m.hash == hash && m.buckets.Length == CAPACITY
      && View[i] == Section(sections[i].name, m.View())
    }

    constructor (hash: string -> nat)
      ensures Valid() && View == [] && Repr == {}
      ensures this.hash == hash
    {
      this.hash := hash;
      sections := [];
      View, Repr := [], {};
    }

    method GetSection(name: string) returns (i: nat)
      requires Valid()
      ensures i == FindSection(View, name)
    {
      i := 0;
      while i < |sections|
        invariant 0 <= i <= |sections|
        invariant forall j :: 0 <= j < i ==> View[j].name != name
      {
        assert MapAt(i);
        if sections[i].name == name {
          break;
        }
        i := i + 1;
      }
      SettingsRoundTrip.FindSectionIs(View, name, i);
    }

    /** Copies a value into the caller's buffer of `n` characters. */
    method Get(section: string, key: string, out: array<char>, n: nat) returns (r: nat)
      requires Valid() && n <= out.Length && out !in Repr
      modifies out
      ensures Valid()
      ensures var found := ValueIn(View, hash, section, key);
              && (r == if found.Some? && |found.value| < n then 1 else 0)
              && (r == 1 ==> CString(out[..]) == found.value)
    {
      hide WellPlaced;
      var i := GetSection(section);
      if i == |sections| {
        return 0;
      }
      assert MapAt(i);
      r := sections[i].table.Get(key, out, n);
      assert forall j :: 0 <= j < |sections| ==> old(MapAt(j)) ==> MapAt(j);
    }

    /** Adds an empty section at the end. */
    method AddSection(name: string)
      requires Valid() && FindSection(View, name) == |View|
      modifies this
      ensures Valid() && fresh(Repr - old(Repr)) && old(Repr) <= Repr
      ensures View == old(View) + [Section(name, Empty(CAPACITY))]
    {
      hide WellPlaced;
      var m := new StrMap(CAPACITY, hash);
      forall j | 0 <= j < |sections|
        ensures sections[j].name != name && sections[j].table.Footprint() <= Repr
      {
        assert MapAt(j);
      }
      ghost var n := |sections|;
      sections := sections + [NamedMap(name, m)];
      View := View + [Section(name, Empty(CAPACITY))];
      Repr := Repr + m.Footprint();
      forall j | 0 <= j < n
        ensures MapAt(j)
      {
        assert old(MapAt(j));
      }
    }

    /** Stores a pair in the section at `i`; the other sections keep their buckets. */
    method PutAt(i: nat, key: string, value: string)
      requires Valid() && i < |sections| && Plain(key) && Plain(value)
      requires |View[i].buckets| > 0
      modifies this, Repr
      ensures Valid() && Repr == old(Repr)
      ensures View == old(View)[i := Section(old(View)[i].name,
                                             HashTable.Put(old(View)[i].buckets, hash, key, value))]
    {
      hide WellPlaced;
      assert MapAt(i);
      var m := sections[i].table;
      var ok := m.Put(key, value, PLENTY);
      View := View[i := Section(View[i].name, m.View())];
      forall j | 0 <= j < |sections|
        ensures MapAt(j)
      {
        assert old(MapAt(j));
        assert j != i ==> sections[j].table.Footprint() !! m.Footprint();
      }
    }

    /** Stores a value, opening the section if it is new; only an unnamed section is refused. */
    method Set(section: string, key: string, value: string) returns (ok: bool)
      requires Valid() && Plain(key) && Plain(value)
      modifies this, Repr
      ensures Valid() && fresh(Repr - old(Repr))
      ensures ok <==> section != ""
      ensures View == if ok then SetIn(old(View), hash, section, key, value) else old(View)
    {
      if |section| == 0 {
        return false;
      }
      var i := GetSection(section);
      if i == |sections| {
        AddSection(section);
      }
      PutAt(i, key, value);
      return true;
    }

    /** Parses one trimmed line. The buffers are never too small: no line is longer than they are. */
    method ParseStr(str: string, state: ParseState) returns (ok: bool)
      requires Valid() && state !in Repr && Plain(str) && Tight(str) && |str| < MAX_LINECHARS
      requires state.currentSectionSize == MAX_LINECHARS
      modifies this, Repr, state
      ensures Valid() && fresh(Repr - old(Repr))
      ensures Step(Parse(old(View), old(state.Header())), hash, ReadLine(str)) ==
              if ok then Some(Parse(View, state.Header())) else None
    {
      hide SetIn;
      hide Valid;
      if At(str, 0) == NUL {
        assert str == "";
        return true;
      }
      var blank := IsBlankStr(str);
      if blank {
        return true;
      }
      var comment := IsCommentStr(str);
      if comment {
        return true;
      }
      assert !Blank(str[0]) by {
        assert forall c <- str[1..] :: c in str;
      }
      var isSection := IsSectionStr(str);
      if isSection {
        ok := ParseHeader(str, state);
        return;
      }
      var isKeyValue := IsKeyValueStr(str);
      if isKeyValue {
        ok := ParseKeyValue(str, state);
        return;
      }
      var isKey := IsKeyWithoutValueStr(str);
      if isKey {
        ok := ParseKey(str, state);
        return;
      }
      return false;
    }

    method ParseHeader(str: string, state: ParseState) returns (ok: bool)
      requires Plain(str) && |str| < MAX_LINECHARS && str != "" && str[0] == '[' && IndexOf(str, ']') < |str|
      requires state.currentSectionSize == MAX_LINECHARS
      modifies state
      ensures ok && state.Header() == Some(str[1..IndexOf(str, ']')])
    {
      var buf := new char[MAX_LINECHARS];
      ok := GetSectionFromStr(str, buf, MAX_LINECHARS);
      if !ok {
        return false;
      }
      if |CString(buf[..])| + 1 > state.currentSectionSize {
        return false;
      }
      state.currentSection := CString(buf[..]);
      state.hasSection := true;
      return true;
    }

    method ParseKeyValue(str: string, state: ParseState) returns (ok: bool)
      requires Valid() && state !in Repr
      requires Plain(str) && |str| < MAX_LINECHARS && 0 < IndexOf(str, '=') < |str| && !Blank(str[0])
      modifies this, Repr
      ensures Valid() && fresh(Repr - old(Repr))
      ensures ok <==> state.hasSection && state.currentSection != ""
      ensures View == if !ok then old(View)
                      else SetIn(old(View), hash, state.currentSection, DropTrailing(str[..IndexOf(str, '=')]),
                                 DropLeading(str[IndexOf(str, '=') + 1..]))
    {
      hide SetIn;
      hide Valid;
      var buf1 := new char[MAX_LINECHARS];
      var buf2 := new char[MAX_LINECHARS];
      ok := GetKeyValueFromStr(str, buf1, MAX_LINECHARS, buf2, MAX_LINECHARS);
      DropLeadingShorter(str[IndexOf(str, '=') + 1..]);
      if !ok {
        return false;
      }
      if !state.hasSection {
        return false;
      }
      ok := Set(state.currentSection, CString(buf1[..]), CString(buf2[..]));
    }

    method ParseKey(str: string, state: ParseState) returns (ok: bool)
      requires Valid() && state !in Repr
      requires Plain(str) && |str| < MAX_LINECHARS
      modifies this, Repr
      ensures Valid() && fresh(Repr - old(Repr))
      ensures ok <==> state.hasSection && state.currentSection != ""
      ensures View == if ok then SetIn(old(View), hash, state.currentSection, str, "") else old(View)
    {
      hide SetIn;
      hide Valid;
      var buf := new char[MAX_LINECHARS];
      ok := GetKeyWithoutValueFromStr(str, buf, MAX_LINECHARS);
      if !ok {
        return false;
      }
      if !state.hasSection {
        return false;
      }
      ok := Set(state.currentSection, CString(buf[..]), "");
    }

    static lemma {:induction false} DropLeadingShorter(s: string)
      ensures |DropLeading(s)| <= |s|
    {
      if s != [] {
        DropLeadingShorter(s[1..]);
      }
    }

    method SaveSection(i: nat, stream: string) returns (out: string)
      requires Valid() && i < |sections|
      requires |HeaderText(sections[i].name)| < MAX_LINECHARS
      ensures out == stream + SectionText(View[i])
    {
      hide WellPlaced;
      hide Roomy;
      assert MapAt(i);
      var buf := HeaderText(sections[i].name);
      out := stream + buf;
      out := sections[i].table.Enum(PairText, out);
      out := out + "\n";
    }

    /** Prints every section. A section line is printed through a line buffer of fixed size; one that with its
        terminator does not fit would run past the buffer's end, and then nothing is defined to be printed. */
    method Save() returns (r: int, stream: Option<string>)
      requires Valid()
      ensures stream == Print(View)
      ensures r == 0
    {
      hide SectionText;
      hide HeaderText;
      var out := "";
      var i := 0;
      while i < |sections|
        invariant 0 <= i <= |sections|
        invariant forall j :: 0 <= j < i ==> |HeaderText(View[j].name)| < MAX_LINECHARS
        invariant SettingsText.Save(View) == out + SettingsText.Save(View[i..])
      {
        assert MapAt(i);
        if |HeaderText(sections[i].name)| >= MAX_LINECHARS {
          assert View[i] in View;
          return 0, None;
        }
        out := SaveSection(i, out);
        assert View[i..][1..] == View[i + 1..];
        i := i + 1;
      }
      assert HeadersFit(View);
      assert View[i..] == [] && out + "" == out;
      return 0, Some(out);
    }
  }

  /** Reads a stream line by line; null if some line is refused. */
  method Open(text: string, hash: string -> nat) returns (s: Settings?)
    ensures s != null <==> Load(text, hash).Some?
    ensures s != null ==>
              && fresh(s) && fresh(s.Repr) && s.Valid() && s.hash == hash
              && s.View == Load(text, hash).value
  {
    hide WellPlaced;
    var settings := new Settings(hash);
    var state := new ParseState(MAX_LINECHARS);
    var trimmed := new char[MAX_LINECHARS];
    TrimStr("", trimmed);
    var rest := text;
    while rest != ""
      invariant settings.Valid() && fresh(settings.Repr) && settings.hash == hash
      invariant trimmed !in settings.Repr && state !in settings.Repr
      invariant ParseFrom(Parse([], None), hash, text) ==
                ParseFrom(Parse(settings.View, state.Header()), hash, rest)
      decreases |rest|
    {
      var n := ChunkLen(rest);
      var buf := CString(rest[..n]);
      TrimStr(buf, trimmed);
      var str := CString(trimmed[..]);
      SettingsRoundTrip.FirstLineText(rest);
      var ok := settings.ParseStr(str, state);
      if !ok {
        return null;
      }
      rest := rest[n..];
    }
    return settings;
  }
}
