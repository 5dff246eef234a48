/** Null-terminated text, as the C library sees it. */
module CStrings {

  const NUL: char := '\0'

  /** The text holds no terminator of its own, so it can be a C string. */
  predicate Plain(s: string) {
    NUL !in s
  }

  /** The text a C string function reads from the start of `buf`: everything before the first terminator. */
  function CString(buf: seq<char>): (s: string)
    ensures Plain(s)
    ensures |s| <= |buf| && s == buf[..|s|]
    ensures |s| < |buf| ==> buf[|s|] == NUL
  {
    if buf == [] || buf[0] == NUL then [] else [buf[0]] + CString(buf[1..])
  }

  /** The character a pointer `i` positions into `s` reads: past the text it reads the terminator. */
  function At(s: string, i: nat): char
    requires i <= |s|
  {
    if i < |s| then s[i] else NUL
  }

  lemma {:induction false} CStringIs(buf: seq<char>, n: nat)
    requires n <= |buf| && Plain(buf[..n])
    requires n < |buf| ==> buf[n] == NUL
    ensures CString(buf) == buf[..n]
  {
  }

  /** Where a walk over a C string stops. */
  lemma CStringEnd(buf: seq<char>)
    ensures forall k :: 0 <= k < |CString(buf)| ==> buf[k] == CString(buf)[k] && buf[k] != NUL
    ensures |CString(buf)| < |buf| ==> buf[|CString(buf)|] == NUL
  {
  }

  lemma CStringPlain(s: string)
    requires Plain(s)
    ensures CString(s) == s
  {
  }

  /** `strcpy`: copies `src` and its terminator, and needs room for both. */
  method StrCpy(dst: array<char>, src: string)
    requires Plain(src) && |src| < dst.Length
    modifies dst
    ensures dst[..] == src + [NUL] + old(dst[..])[|src| + 1..]
    ensures CString(dst[..]) == src
  {
    var i := 0;
    while i < |src|
      invariant 0 <= i <= |src|
      invariant dst[..i] == src[..i]
      invariant dst[i..] == old(dst[..])[i..]
    {
      dst[i] := src[i];
      i := i + 1;
    }
    dst[i] := NUL;
    assert dst[i + 1..] == old(dst[..])[i + 1..];
    assert dst[..] == dst[..i] + [dst[i]] + dst[i + 1..];
    assert dst[..][..|src|] == src;
    CStringIs(dst[..], |src|);
  }
}
