/** Settings read as integers and integer tuples (get_converted_value, get_converted_tuple, get_token). */
module SettingsValues {
  import opened CStrings
  import opened HashTable
  import opened Numbers
  import opened SettingsText
  import opened SettingsMeaning
  import opened SettingsObjects

  const INT_INVALID: int := INT_MIN

  /** The text has only the characters an integer is made of. */
  predicate Numeral(s: string) {
    forall c <- s :: IsDigit(c) || c == '-'
  }

  /** The two conversions to a whole number. */
  datatype Mode = IntMode | LongMode

  function Convert(mode: Mode, s: string): int {
    match mode
    case IntMode => Atoi(s)
    case LongMode => Atol(s)
  }

  /** What a setting reads as; the value that stands for a missing one is the smallest int in both modes. */
  function NumberIn(mode: Mode, ss: seq<Section>, hash: string -> nat, section: string, key: string): int
    requires HasBuckets(ss)
  {
    match ValueIn(ss, hash, section, key)
    case None => INT_INVALID
    case Some(v) => if |v| < MAX_VALUECHARS && Numeral(v) then Convert(mode, v) else INT_INVALID
  }

  method GetConvertedValue(settings: Settings, section: string, key: string, mode: Mode)
    returns (ok: bool, out: int)
    requires settings.Valid()
    ensures var found := ValueIn(settings.View, settings.hash, section, key);
            && (ok <==> found.Some? && |found.value| < 256 && forall c <- found.value :: '0' <= c <= '9' || c == '-')
            && (ok ==> out == Convert(mode, found.value))
  {
    hide WellPlaced;
    out := 0;
    var value := new char[MAX_VALUECHARS];
    var r := settings.Get(section, key, value, MAX_VALUECHARS);
    if r == 0 {
      return false, out;
    }
    var number := IsNumeral(value);
    if !number {
      return false, out;
    }
    match mode {
      case IntMode => return true, Atoi(CString(value[..]));
      case LongMode => return true, Atol(CString(value[..]));
    }
  }

  /** The check that a value is a number. */
  method IsNumeral(value: array<char>) returns (r: bool)
    requires |CString(value[..])| < value.Length
    ensures r == Numeral(CString(value[..]))
  {
    ghost var text := CString(value[..]);
    CStringEnd(value[..]);
    var i := 0;
    while value[i] != NUL
      invariant 0 <= i <= |text| && Numeral(text[..i])
      decreases |text| - i
    {
      assert value[i] == text[i];
      if !IsDigit(value[i]) && value[i] != '-' {
        assert text[i] in text;
        return false;
      }
      i := i + 1;
    }
    assert text[..i] == text;
    return true;
  }

  method GetInt(settings: Settings, section: string, key: string) returns (n: int)
    requires settings.Valid()
    ensures n == NumberIn(IntMode, settings.View, settings.hash, section, key)
    ensures var found := ValueIn(settings.View, settings.hash, section, key);
            n == if found.Some? && |found.value| < 256 && forall c <- found.value :: '0' <= c <= '9' || c == '-'
                 then Atoi(found.value) else -0x8000_0000
  {
    var ok, i := GetConvertedValue(settings, section, key, IntMode);
    if ok {
      return i;
    }
    return INT_INVALID;
  }

  method GetLong(settings: Settings, section: string, key: string) returns (n: int)
    requires settings.Valid()
    ensures n == NumberIn(LongMode, settings.View, settings.hash, section, key)
    ensures var found := ValueIn(settings.View, settings.hash, section, key);
            n == if found.Some? && |found.value| < 256 && forall c <- found.value :: '0' <= c <= '9' || c == '-'
                 then Atol(found.value) else -0x8000_0000
  {
    var ok, i := GetConvertedValue(settings, section, key, LongMode);
    if ok {
      return i;
    }
    return INT_INVALID;
  }

  /** Storing the decimal text of an int and reading the setting gives the int back, whatever else is stored; the
      same for a long. The smallest int comes back too, but is the value that also stands for a missing one. */
  lemma IntRoundTrip(ss: seq<Section>, hash: string -> nat, section: string, key: string, n: int)
    requires Placed(ss, hash)
    requires LONG_MIN <= n <= LONG_MAX
    ensures NumberIn(LongMode, SetIn(ss, hash, section, key, DecimalInt(n)), hash, section, key) == n
    ensures INT_MIN <= n <= INT_MAX ==>
              NumberIn(IntMode, SetIn(ss, hash, section, key, DecimalInt(n)), hash, section, key) == n
  {
    hide SetIn;
    hide ValueIn;
    hide Atoi;
    hide Atol;
    hide Decimal;
    SetInValue(ss, hash, section, key, DecimalInt(n));
    ReadsBack(n);
    LongLength(n);
  }

  lemma LongLength(n: int)
    requires LONG_MIN <= n <= LONG_MAX
    ensures |DecimalInt(n)| <= 21
  {
    hide Decimal;
    assert Pow10(5) == 100_000;
    assert Pow10(10) == 10_000_000_000;
    assert Pow10(15) == 1_000_000_000_000_000;
    assert Pow10(20) == 100_000_000_000_000_000_000;
    DecimalLength(if n < 0 then -n else n, 20);
  }

  // ---------- Tuples ----------

  /** The texts between separators; a separator at the very end starts no further text. */
  function Tokens(s: string, delim: char): seq<string>
    decreases |s|
  {
    if s == "" then []
    else
      var i := IndexOf(s, delim);
      [s[..i]] + if i < |s| then Tokens(s[i + 1..], delim) else []
  }

  /** What is left of a text after its first token and the separator. */
  function AfterToken(s: string, delim: char): string {
    var i := IndexOf(s, delim);
    if i < |s| then s[i + 1..] else ""
  }

  function Ints(tokens: seq<string>): seq<int> {
    seq(|tokens|, i requires 0 <= i < |tokens| => Atoi(tokens[i]))
  }

  /** The numbers read from a tuple's text: the first `limit` tokens, or none if one of them is not a number. */
  function TupleOf(s: string, limit: nat): seq<int> {
    var all := Tokens(s, ',');
    var tokens := if |all| < limit then all else all[..limit];
    if forall t <- tokens :: AllDigits(t) then Ints(tokens) else []
  }

  /** The next token of the text at `v`, ended in place by a terminator; `start` is where it begins. */
  method GetToken(str: array<char>, v: nat, delim: char) returns (found: bool, start: nat, last: nat)
    requires v < str.Length && |CString(str[v..])| < str.Length - v && delim != NUL
    modifies str
    ensures found <==> old(CString(str[v..])) != ""
    ensures found ==>
              var s := old(CString(str[v..]));
              var i := IndexOf(s, delim);
              && v <= start <= last < str.Length && |CString(str[last..])| < str.Length - last
              && CString(str[start..]) == s[..i]
              && CString(str[last..]) == AfterToken(s, delim)
  {
    hide CString;
    hide IndexOf;
    ghost var s := CString(str[v..]);
    ghost var i := IndexOf(s, delim);
    CStringEnd(str[v..]);
    start := v;
    last := v;
    if str[v] == NUL {
      return false, start, last;
    }
    assert forall k :: 0 <= k < |s| ==> str[v + k] == s[k] && s[k] != NUL;
    assert str[v + |s|] == NUL;
    while str[last] != NUL && str[last] != delim
      invariant v <= last <= v + i
      decreases v + i - last
    {
      last := last + 1;
    }
    assert last == v + i;
    if str[last] != NUL {
      str[last] := NUL;
      last := last + 1;
    }
    CStringFrom(str, v, i, s[..i]);
    ghost var rest := AfterToken(s, delim);
    CStringFrom(str, last, |rest|, rest);
    return true, start, last;
  }

  lemma CStringFrom(str: array<char>, v: nat, n: nat, s: string)
    requires v + n < str.Length && |s| == n && str[v + n] == NUL
    requires forall k :: 0 <= k < n ==> str[v + k] == s[k] && s[k] != NUL
    ensures CString(str[v..]) == s
  {
    assert str[v..][..n] == s;
    CStringIs(str[v..], n);
  }

  method IsNumber(str: array<char>, start: nat) returns (r: bool)
    requires start < str.Length && |CString(str[start..])| < str.Length - start
    ensures r == AllDigits(CString(str[start..]))
  {
    hide CString;
    ghost var s := CString(str[start..]);
    CStringEnd(str[start..]);
    var i := 0;
    assert forall k :: 0 <= k < |s| ==> str[start + k] == s[k] && s[k] != NUL;
    assert str[start + |s|] == NUL;
    while str[start + i] != NUL
      invariant 0 <= i <= |s| && AllDigits(s[..i])
      decreases |s| - i
    {
      if !IsDigit(str[start + i]) {
        return false;
      }
      i := i + 1;
    }
    assert s[..i] == s;
    return true;
  }

  /** What a tuple setting reads as. */
  function TupleIn(ss: seq<Section>, hash: string -> nat, section: string, key: string, limit: nat): seq<int>
    requires HasBuckets(ss)
  {
    match ValueIn(ss, hash, section, key)
    case None => []
    case Some(v) => if |v| < MAX_VALUECHARS then TupleOf(v, limit) else []
  }

  /** Reads a setting as a tuple: how many numbers it gave and the numbers themselves. */
  method GetIntTuple(settings: Settings, section: string, key: string, out: array<int>, limit: nat)
    returns (count: nat)
    requires settings.Valid()
    requires limit <= out.Length && out !in settings.Repr
    modifies out
    ensures var tuple := TupleIn(settings.View, settings.hash, section, key, limit);
            count == |tuple| && out[..count] == tuple
  {
    hide WellPlaced;
    if limit == 0 {
      return 0;
    }
    var value := new char[MAX_VALUECHARS];
    var r := settings.Get(section, key, value, MAX_VALUECHARS);
    if r == 0 {
      return 0;
    }
    assert value[0..] == value[..];
    count := ReadTuple(value, out, limit);
  }

  lemma TokensStep(s: string, delim: char)
    ensures Tokens(s, delim) == [] <==> s == ""
    ensures s != "" ==>
              var i := IndexOf(s, delim);
              && Tokens(s, delim)[0] == s[..i]
              && Tokens(s, delim)[1..] == Tokens(AfterToken(s, delim), delim)
  {
  }

  lemma TupleRead(s: string, limit: nat, count: nat)
    requires var all := Tokens(s, ','); count == if |all| < limit then |all| else limit
    requires forall i :: 0 <= i < count ==> AllDigits(Tokens(s, ',')[i])
    ensures |TupleOf(s, limit)| == count
    ensures forall i :: 0 <= i < count ==> TupleOf(s, limit)[i] == Atoi(Tokens(s, ',')[i])
  {
  }

  lemma TupleRefused(s: string, limit: nat, bad: nat)
    requires bad < |Tokens(s, ',')| && bad < limit && !AllDigits(Tokens(s, ',')[bad])
    ensures TupleOf(s, limit) == []
  {
  }

  method ReadTuple(value: array<char>, out: array<int>, limit: nat) returns (count: nat)
    requires |CString(value[0..])| < value.Length && limit <= out.Length
    modifies value, out
    ensures count == |TupleOf(old(CString(value[0..])), limit)|
    ensures out[..count] == TupleOf(old(CString(value[0..])), limit)
  {
    hide CString;
    hide TupleOf;
    hide Tokens;
    hide Atoi;
    hide AllDigits;
    hide AfterToken;
    ghost var s := CString(value[0..]);
    ghost var all := Tokens(s, ',');
    TokensStep(s, ',');
    ghost var rest := AfterToken(s, ',');
    count := 0;
    var more, token: nat, v: nat := GetToken(value, 0, ',');
    while more && count < limit
      invariant 0 <= count <= limit && count <= |all|
      invariant forall i :: 0 <= i < count ==> AllDigits(all[i]) && out[i] == Atoi(all[i])
      invariant more <==> count < |all|
      invariant more ==>
                  && token <= v < value.Length && CString(value[v..]) == rest && |rest| < value.Length - v
                  && CString(value[token..]) == all[count] && |all[count]| < value.Length - token
                  && all[count + 1..] == Tokens(rest, ',')
      decreases limit - count
    {
      var number := IsNumber(value, token);
      if !number {
        TupleRefused(s, limit, count);
        return 0;
      }
      out[count] := Atoi(CString(value[token..]));
      count := count + 1;
      TokensStep(rest, ',');
      rest := AfterToken(rest, ',');
      more, token, v := GetToken(value, v, ',');
    }
    TupleRead(s, limit, count);
  }

  /** Numbers printed with commas between them. */
  function Join(ns: seq<nat>): string {
    if ns == [] then "" else if |ns| == 1 then Decimal(ns[0]) else Decimal(ns[0]) + "," + Join(ns[1..])
  }

  lemma TokensCons(word: string, delim: char, rest: string)
    requires delim !in word
    ensures Tokens(word + [delim] + rest, delim) == [word] + Tokens(rest, delim)
    ensures word != "" ==> Tokens(word, delim) == [word]
  {
    var s := word + [delim] + rest;
    forall j | 0 <= j < |word|
      ensures s[j] != delim && word[j] != delim
    {
      assert s[j] == word[j] && word[j] in word;
    }
    IndexOfIs(s, delim, |word|);
    IndexOfIs(word, delim, |word|);
    assert s[..|word|] == word && s[|word| + 1..] == rest;
    assert word[..|word|] == word;
  }

  lemma {:induction false} TokensOfJoin(ns: seq<nat>)
    ensures |Tokens(Join(ns), ',')| == |ns|
    ensures forall i :: 0 <= i < |ns| ==> Tokens(Join(ns), ',')[i] == Decimal(ns[i])
  {
    hide Decimal;
    if ns == [] {
    } else if |ns| == 1 {
      TokensCons(Decimal(ns[0]), ',', "");
    } else {
      hide Tokens;
      TokensCons(Decimal(ns[0]), ',', Join(ns[1..]));
      TokensOfJoin(ns[1..]);
    }
  }

  lemma JoinReads(ns: seq<nat>, limit: nat)
    requires forall n <- ns :: n <= INT_MAX
    ensures TupleOf(Join(ns), limit) == if |ns| < limit then ns else ns[..limit]
  {
    hide Tokens;
    hide TupleOf;
    hide Join;
    hide Atoi;
    hide Atol;
    hide AllDigits;
    hide Decimal;
    TokensOfJoin(ns);
    var count := if |ns| < limit then |ns| else limit;
    forall i | 0 <= i < count
      ensures AllDigits(Tokens(Join(ns), ',')[i]) && Atoi(Tokens(Join(ns), ',')[i]) == ns[i]
    {
      assert ns[i] in ns;
      ReadsBack(ns[i]);
      PlainDigits(ns[i]);
    }
    TupleRead(Join(ns), limit, count);
  }

  lemma PlainDigits(n: nat)
    ensures DecimalInt(n) == Decimal(n) && AllDigits(Decimal(n))
  {
  }

  /** Storing non-negative ints printed with commas and reading the setting gives back the first `limit` of them,
      whatever else is stored; a text of 256 characters or more reads as no numbers at all. */
  lemma TupleRoundTrip(ss: seq<Section>, hash: string -> nat, section: string, key: string, ns: seq<nat>, limit: nat)
    requires Placed(ss, hash) && forall n <- ns :: n <= INT_MAX
    ensures TupleIn(SetIn(ss, hash, section, key, Join(ns)), hash, section, key, limit) ==
            if |Join(ns)| >= 256 then [] else if |ns| < limit then ns else ns[..limit]
  {
    hide SetIn;
    hide ValueIn;
    hide TupleOf;
    hide Join;
    SetInValue(ss, hash, section, key, Join(ns));
    JoinReads(ns, limit);
  }
}
