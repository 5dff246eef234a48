/** The pointer-walking scanners of settings.c, each proved against what `SettingsText` says of a line.
    A `const char *` is the text up to its terminator; an output buffer is an array. */
module SettingsScan {
  import opened CStrings
  import opened SettingsText

  /** Copies the text without its outer blanks. The backward scan stops inside the text. */
  method TrimStr(str: string, out: array<char>)
    requires Plain(str) && |str| < out.Length
    modifies out
    ensures CString(out[..]) == Trim(str)
  {
    var p := 0;
    while At(str, p) != NUL && Blank(At(str, p))
      invariant 0 <= p <= |str|
      invariant DropLeading(str) == DropLeading(str[p..])
      decreases |str| - p
    {
      p := p + 1;
    }
    var s0 := p;
    ghost var t := str[s0..];
    assert DropLeading(str) == t;
    var len := 0;
    while At(str, p) != NUL
      invariant s0 <= p <= |str| && len == p - s0
      decreases |str| - p
    {
      p := p + 1;
      len := len + 1;
    }
    assert p == |str|;
    if len > 0 {
      p := p - 1;
    }
    assert t[..len] == t;
    while Blank(At(str, p))
      invariant s0 <= p <= |str| && 0 <= len <= |t|
      invariant if t == [] then len == 0 && p == |str| else len == p - s0 + 1 && !Blank(t[0]) && p < |str|
      invariant DropTrailing(t) == DropTrailing(t[..len])
      decreases len
    {
      assert t[..len][..len - 1] == t[..len - 1];
      p := p - 1;
      len := len - 1;
    }
    MemCpy(out, str, s0, len);
    out[len] := NUL;
    assert out[..][..len] == t[..len];
    forall c | c in t[..len]
      ensures c in str
    {
    }
    CStringIs(out[..], len);
  }

  method MemCpy(out: array<char>, str: string, s0: nat, len: nat)
    requires s0 + len <= |str| && len < out.Length
    modifies out
    ensures out[..len] == str[s0..s0 + len]
  {
    var i := 0;
    while i < len
      invariant 0 <= i <= len
      invariant out[..i] == str[s0..s0 + i]
    {
      out[i] := str[s0 + i];
      i := i + 1;
    }
  }

  method IsBlankStr(str: string) returns (r: bool)
    requires Plain(str)
    ensures r == AllBlank(str)
  {
    var p := 0;
    while At(str, p) != NUL
      invariant 0 <= p <= |str| && AllBlank(str[..p])
      decreases |str| - p
    {
      if !Blank(At(str, p)) {
        assert str[p] in str;
        return false;
      }
      p := p + 1;
    }
    assert str[..p] == str;
    return true;
  }

  method IsCommentStr(str: string) returns (r: bool)
    ensures r <==> str != "" && str[0] == '#'
  {
    return At(str, 0) == '#';
  }

  /** The walk shared by the scanners: to the first `c`, or to the terminator. */
  method WalkTo(str: string, c: char) returns (p: nat)
    requires Plain(str) && c != NUL
    ensures p == IndexOf(str, c)
  {
    p := 0;
    while At(str, p) != NUL && At(str, p) != c
      invariant 0 <= p <= |str|
      invariant IndexOf(str, c) == p + IndexOf(str[p..], c)
      decreases |str| - p
    {
      p := p + 1;
    }
  }

  method IsSectionStr(str: string) returns (r: bool)
    requires Plain(str)
    ensures r <==> str != "" && str[0] == '[' && IndexOf(str, ']') < |str|
  {
    if At(str, 0) != '[' {
      return false;
    }
    var p := WalkTo(str, ']');
    if At(str, p) != ']' {
      return false;
    }
    return true;
  }

  method IsKeyValueStr(str: string) returns (r: bool)
    requires Plain(str)
    ensures r <==> 0 < IndexOf(str, '=') < |str|
  {
    if At(str, 0) == '=' {
      return false;
    }
    var p := WalkTo(str, '=');
    if At(str, p) != '=' {
      return false;
    }
    return true;
  }

  method IsKeyWithoutValueStr(str: string) returns (r: bool)
    requires Plain(str)
    ensures r <==> IndexOf(str, '=') == |str|
  {
    if At(str, 0) == '=' {
      return false;
    }
    var p := WalkTo(str, '=');
    if At(str, p) == '=' {
      return false;
    }
    return true;
  }

  /** Copies characters from position `from` until `stop`, which may be the terminator itself, into a
      buffer of `n`; fails before writing past it. `p` is where the walk ended. */
  method CopyTo(str: string, from: nat, stop: char, out: array<char>, n: nat) returns (ok: bool, p: nat)
    requires Plain(str) && from <= |str| && n <= out.Length
    modifies out
    ensures var text := str[from..from + IndexOf(str[from..], stop)];
            && (ok <==> |text| < n)
            && (ok ==> p == from + |text| && out[..|text|] == text && out[|text|] == NUL)
  {
    var count := 0;
    p := from;
    while At(str, p) != NUL && At(str, p) != stop
      invariant from <= p <= |str| && count == p - from <= n
      invariant IndexOf(str[from..], stop) == count + IndexOf(str[p..], stop)
      invariant out[..count] == str[from..p]
      decreases |str| - p
    {
      if count == n {
        return false, p;
      }
      out[count] := str[p];
      p := p + 1;
      count := count + 1;
    }
    if count == n {
      return false, p;
    }
    out[count] := NUL;
    return true, p;
  }

  method GetSectionFromStr(str: string, out: array<char>, n: nat) returns (ok: bool)
    requires Plain(str) && str != "" && str[0] == '[' && n <= out.Length
    modifies out
    ensures ok <==> IndexOf(str, ']') - 1 < n
    ensures ok ==> CString(out[..]) == str[1..IndexOf(str, ']')]
  {
    var p;
    ok, p := CopyTo(str, 1, ']', out, n);
    if ok {
      assert out[..][..p - 1] == str[1..p];
      assert forall c <- str[1..p] :: c in str;
      CStringIs(out[..], p - 1);
    }
  }

  /** Drops the blanks at the end of the first `len` characters of a buffer. They start with a
      non-blank, so the backward scan stops inside the buffer. */
  method EndKey(out: array<char>, len: nat)
    requires 0 < len < out.Length && Plain(out[..len]) && !Blank(out[0])
    modifies out
    ensures CString(out[..]) == DropTrailing(old(out[..len]))
  {
    ghost var word := out[..len];
    var end := len;
    assert word[..end] == word;
    while Blank(out[end - 1])
      invariant 0 < end <= len && out[..len] == word
      invariant DropTrailing(word) == DropTrailing(word[..end])
      decreases end
    {
      assert word[..end][..end - 1] == word[..end - 1];
      end := end - 1;
    }
    out[end] := NUL;
    assert out[..][..end] == word[..end];
    assert forall c <- word[..end] :: c in word;
    CStringIs(out[..], end);
  }

  method SkipBlanks(str: string, from: nat) returns (p: nat)
    requires Plain(str) && from <= |str|
    ensures from <= p <= |str| && str[p..] == DropLeading(str[from..])
  {
    p := from;
    while At(str, p) != NUL && Blank(At(str, p))
      invariant from <= p <= |str|
      invariant DropLeading(str[from..]) == DropLeading(str[p..])
      decreases |str| - p
    {
      assert str[p..][1..] == str[p + 1..];
      p := p + 1;
    }
  }

  /** Copies the rest of the text from a position. */
  method CopyRest(str: string, from: nat, out: array<char>, n: nat) returns (ok: bool)
    requires Plain(str) && from <= |str| && n <= out.Length
    modifies out
    ensures ok <==> |str| - from < n
    ensures ok ==> CString(out[..]) == str[from..]
  {
    var text := str[from..];
    assert forall c <- text :: c in str;
    IndexOfIs(text, NUL, |text|);
    var p;
    ok, p := CopyTo(str, from, NUL, out, n);
    if ok {
      assert out[..][..|text|] == text;
      CStringIs(out[..], |text|);
    }
  }

  /** Splits `key = value`. */
  method GetKeyValueFromStr(str: string, out1: array<char>, n1: nat, out2: array<char>, n2: nat)
    returns (ok: bool)
    requires Plain(str) && 0 < IndexOf(str, '=') < |str| && !Blank(str[0])
    requires n1 <= out1.Length && n2 <= out2.Length && out1 != out2
    modifies out1, out2
    ensures var i := IndexOf(str, '=');
            && (ok <==> i < n1 && |DropLeading(str[i + 1..])| < n2)
            && (ok ==> CString(out1[..]) == DropTrailing(str[..i]))
            && (ok ==> CString(out2[..]) == DropLeading(str[i + 1..]))
  {
    hide DropTrailing;
    hide DropLeading;
    hide CString;
    var p;
    assert str[0..] == str;
    ok, p := CopyTo(str, 0, '=', out1, n1);
    if !ok {
      return;
    }
    assert out1[..p] == str[..p] && out1[0] == str[0];
    assert forall c <- str[..p] :: c in str;
    EndKey(out1, p);
    if At(str, p) != NUL {
      p := p + 1;
    }
    p := SkipBlanks(str, p);
    ok := CopyRest(str, p, out2, n2);
  }

  method GetKeyWithoutValueFromStr(str: string, out: array<char>, n: nat) returns (ok: bool)
    requires Plain(str) && n <= out.Length
    modifies out
    ensures ok <==> |str| < n
    ensures ok ==> CString(out[..]) == str
  {
    ok := CopyRest(str, 0, out, n);
    assert str[0..] == str;
  }
}
