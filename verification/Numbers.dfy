/** Decimal text, and the C library's reading of it. */
module Numbers {

  const INT_MIN: int := -0x8000_0000
  const INT_MAX: int := 0x7fff_ffff
  const LONG_MIN: int := -0x8000_0000_0000_0000
  const LONG_MAX: int := 0x7fff_ffff_ffff_ffff

  predicate IsDigit(c: char) {
    '0' <= c <= '9'
  }

  function DigitOf(c: char): nat
    requires IsDigit(c)
  {
    (c - '0') as int
  }

  function DigitChar(d: nat): (c: char)
    requires d < 10
    ensures IsDigit(c) && DigitOf(c) == d
  {
    '0' + d as char
  }

  predicate AllDigits(s: string) {
    forall c <- s :: IsDigit(c)
  }

  /** Decimal text of a number, without leading zeros. */
  function Decimal(n: nat): (s: string)
    ensures s != "" && IsDigit(s[0]) && AllDigits(s)
  {
    if n < 10 then [DigitChar(n)] else Decimal(n / 10) + [DigitChar(n % 10)]
  }

  function DecimalInt(n: int): string {
    if n < 0 then "-" + Decimal(-n) else Decimal(n)
  }

  function Value(s: string): nat
    requires AllDigits(s)
  {
    if s == "" then 0 else 10 * Value(s[..|s| - 1]) + DigitOf(s[|s| - 1])
  }

  lemma {:induction false} ValueDecimal(n: nat)
    ensures Value(Decimal(n)) == n
  {
    if n < 10 {
      assert Decimal(n)[..0] == "";
    } else {
      ValueDecimal(n / 10);
      assert Decimal(n)[..|Decimal(n)| - 1] == Decimal(n / 10);
    }
  }

  /** Length of the digits a text starts with. */
  function DigitRun(s: string): (n: nat)
    ensures n <= |s| && AllDigits(s[..n])
    ensures n < |s| ==> !IsDigit(s[n])
  {
    if s == "" || !IsDigit(s[0]) then 0
    else
      assert s[..1 + DigitRun(s[1..])] == [s[0]] + s[1..][..DigitRun(s[1..])];
      1 + DigitRun(s[1..])
  }

  lemma {:induction false} DigitRunIs(s: string, n: nat)
    requires n <= |s| && AllDigits(s[..n]) && (n < |s| ==> !IsDigit(s[n]))
    ensures DigitRun(s) == n
  {
  }

  /** What the C library calls white space. */
  predicate IsSpace(c: char) {
    c == ' ' || 9 <= c as int <= 13
  }

  function SkipSpace(s: string): (t: string)
    ensures |t| <= |s| && t == s[|s| - |t|..]
    ensures t != "" ==> !IsSpace(t[0])
  {
    if s != "" && IsSpace(s[0]) then SkipSpace(s[1..]) else s
  }

  function Clamp(x: int, lo: int, hi: int): int
    requires lo <= hi
  {
    if x < lo then lo else if x > hi then hi else x
  }

  /** The number a text starts with, 0 if it starts with none. */
  function Parse(s: string): int {
    var t := SkipSpace(s);
    if t != "" && t[0] == '-' then -Leading(t[1..])
    else if t != "" && t[0] == '+' then Leading(t[1..])
    else Leading(t)
  }

  function Leading(s: string): int {
    Value(s[..DigitRun(s)])
  }

  /** `atol`; a number that does not fit stops at the nearest end of the range. */
  function Atol(s: string): (n: int)
    ensures LONG_MIN <= n <= LONG_MAX
  {
    Clamp(Parse(s), LONG_MIN, LONG_MAX)
  }

  /** `atoi`: the long number cut down to 32 bits. */
  function Atoi(s: string): (n: int)
    ensures INT_MIN <= n <= INT_MAX
  {
    (Atol(s) - INT_MIN) % 0x1_0000_0000 + INT_MIN
  }

  lemma LeadingDecimal(n: nat)
    ensures Leading(Decimal(n)) == n
  {
    var d := Decimal(n);
    ValueDecimal(n);
    assert d[..|d|] == d;
    DigitRunIs(d, |d|);
  }

  lemma ParseDecimalInt(n: int)
    ensures Parse(DecimalInt(n)) == n
  {
    hide Leading;
    hide Decimal;
    if n < 0 {
      LeadingDecimal(-n);
      ParseMinus(Decimal(-n));
    } else {
      LeadingDecimal(n);
      ParsePlain(Decimal(n));
    }
  }

  lemma ParsePlain(d: string)
    requires d != "" && IsDigit(d[0])
    ensures Parse(d) == Leading(d)
  {
  }

  lemma ParseMinus(d: string)
    ensures Parse("-" + d) == -Leading(d)
  {
  }

  /** Reading decimal text gives the number back: as a long if it is one, as an int if it is one. */
  lemma ReadsBack(n: int)
    ensures LONG_MIN <= n <= LONG_MAX ==> Atol(DecimalInt(n)) == n
    ensures INT_MIN <= n <= INT_MAX ==> Atoi(DecimalInt(n)) == n
  {
    hide Parse;
    hide DecimalInt;
    ParseDecimalInt(n);
    if INT_MIN <= n <= INT_MAX {
      SmallUnchanged(n);
    }
  }

  lemma SmallUnchanged(n: int)
    requires INT_MIN <= n <= INT_MAX
    ensures (n - INT_MIN) % 0x1_0000_0000 + INT_MIN == n
  {
  }

  // ---------- Reading any text ----------

  /** Blanks, tabs and the other white space of the C library. */
  predicate White(c: char) {
    c == ' ' || c == '\t' || c == '\n' || c as int == 11 || c as int == 12 || c == '\r'
  }

  predicate Spaces(s: string) {
    forall c <- s :: White(c)
  }

  /** Digits, up to the end of the text or a character that is none. */
  predicate Number(digits: string, rest: string) {
    && (forall c <- digits :: '0' <= c <= '9')
    && (rest != "" ==> rest[0] < '0' || rest[0] > '9')
  }

  lemma LeadingReads(digits: string, rest: string)
    requires Number(digits, rest)
    ensures DigitRun(digits + rest) == |digits|
    ensures AllDigits(digits) && Leading(digits + rest) == Value(digits)
  {
    var s := digits + rest;
    assert s[..|digits|] == digits;
    DigitRunIs(s, |digits|);
  }

  lemma {:induction false} SkipSpaceIs(a: string, t: string)
    requires Spaces(a) && (t != "" ==> !White(t[0]))
    ensures SkipSpace(a + t) == t
  {
    if a == "" {
      assert a + t == t;
      assert t != "" ==> !IsSpace(t[0]);
    } else {
      assert (a + t)[1..] == a[1..] + t;
      assert White(a[0]);
      SkipSpaceIs(a[1..], t);
    }
  }

  /** A text reads as the number behind its white space, up to the first character that is no digit. A sign may
      come first; without digits the number is zero. */
  lemma ParseReads(a: string, sign: string, digits: string, rest: string)
    requires Spaces(a) && Number(digits, rest) && (sign == "" || sign == "-" || sign == "+")
    requires sign == digits == "" && rest != "" ==> rest[0] !in "+-" && !White(rest[0])
    ensures AllDigits(digits)
    ensures Parse(a + sign + digits + rest) == if sign == "-" then -(Value(digits) as int) else Value(digits)
  {
    hide Parse;
    hide Leading;
    hide SkipSpace;
    hide Value;
    LeadingReads(digits, rest);
    var u := digits + rest;
    assert u != "" ==> u[0] == if digits != "" then digits[0] else rest[0];
    assert a + sign + digits + rest == a + (sign + u);
    SignRead(a, sign, u);
  }

  lemma SignRead(a: string, sign: string, u: string)
    requires Spaces(a) && (sign == "" || sign == "-" || sign == "+")
    requires sign == "" && u != "" ==> u[0] !in "+-" && !White(u[0])
    ensures Parse(a + (sign + u)) == if sign == "-" then -Leading(u) else Leading(u)
  {
    hide Leading;
    hide SkipSpace;
    SkipSpaceIs(a, sign + u);
    if sign == "" {
      assert sign + u == u;
    } else {
      assert (sign + u)[1..] == u;
    }
  }

  /** A long stops at the ends of its range; an int is the long cut down to its low 32 bits. */
  lemma Ranges(s: string)
    ensures Atol(s) == if Parse(s) < -0x8000_0000_0000_0000 then -0x8000_0000_0000_0000
                       else if Parse(s) > 0x7fff_ffff_ffff_ffff then 0x7fff_ffff_ffff_ffff else Parse(s)
    ensures -0x8000_0000 <= Atoi(s) <= 0x7fff_ffff && (Atoi(s) - Atol(s)) % 0x1_0000_0000 == 0
  {
    hide Parse;
    LowBits(Atol(s));
  }

  lemma LowBits(n: int)
    ensures ((n - INT_MIN) % 0x1_0000_0000 + INT_MIN - n) % 0x1_0000_0000 == 0
  {
  }

  /** Decimal text of a number below a power of ten has no more digits than the power. */
  lemma {:induction false} DecimalLength(n: nat, digits: nat)
    requires digits > 0 && n < Pow10(digits)
    ensures |Decimal(n)| <= digits
    decreases digits
  {
    if n >= 10 {
      DecimalLength(n / 10, digits - 1);
    }
  }

  function Pow10(k: nat): (p: nat)
    ensures p > 0
  {
    if k == 0 then 1 else 10 * Pow10(k - 1)
  }
}
