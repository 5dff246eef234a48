/** File names from times (`hptime2timestr`) and the directory paths they share. */
module FileNames {
  import opened Options
  import opened Seqs
  import opened Numbers
  import opened Calendar
  import opened HpTime

  // ---------- Printing ----------

  function Pad(s: string, width: nat, fill: char): string
    decreases width - |s|
  {
    if |s| >= width then s else Pad([fill] + s, width, fill)
  }

  /** `%02d` and `%03d` of a number that is not negative, `%4d` of any. */
  function Digits(n: nat, width: nat): string {
    Pad(Decimal(n), width, '0')
  }

  function Year4(y: int): string {
    Pad(DecimalInt(y), 4, ' ')
  }

  /** Fields after the year, each behind the separator: two digits each, three for the last if there are seven. */
  function Rest(fields: seq<nat>, sep: char): string {
    if fields == [] then ""
    else [sep] + Digits(fields[0], 2) + Rest(fields[1..], sep)
  }

  function DateFields(tm: Tm): seq<nat> {
    [tm.mon, tm.mday, tm.hour, tm.min]
  }

  function TimeStr(tm: Tm, ms: nat): string {
    Year4(tm.year) + Rest(DateFields(tm) + [tm.sec], '.') + "." + Digits(ms, 3)
  }

  // ---------- Times ----------

  /** The millisecond a time falls in, and the second, both rounded down. */
  function Milli(t: int): int {
    t / 1000
  }

  function Second(t: int): int {
    t / HPTMODULUS
  }

  function TmOf(t: int): Tm {
    Gmtime(Second(t))
  }

  function MsOf(t: int): nat {
    t % HPTMODULUS / 1000
  }

  // ---------- What a name says ----------

  /** The characters from `i` up to `j` are digits, and `n` is what they read as. */
  ghost predicate Reads(text: string, i: nat, j: nat, n: int) {
    i <= j <= |text| && AllDigits(text[i..j]) && Value(text[i..j]) == n
  }

  /** A text starts with year, month, day, hour and minute, with a separator between them. */
  ghost predicate ShowsDate(text: string, tm: Tm, sep: char) {
    && |text| >= 16
    && Parse(text[..4]) == tm.year && (0 <= tm.year < 1000 ==> text[0] == ' ')
    && text[4] == sep && Reads(text, 5, 7, tm.mon)
    && text[7] == sep && Reads(text, 8, 10, tm.mday)
    && text[10] == sep && Reads(text, 11, 13, tm.hour)
    && text[13] == sep && Reads(text, 14, 16, tm.min)
  }

  /** The name `YYYY.MM.DD.hh.mm.ss.mmm` of a time. */
  ghost predicate ShowsTime(text: string, tm: Tm, ms: nat) {
    && |text| == 23 && ShowsDate(text, tm, '.')
    && text[16] == '.' && Reads(text, 17, 19, tm.sec)
    && text[19] == '.' && Reads(text, 20, 23, ms)
  }

  /** Builds the name string and the date path, or nothing if the year does not fit four characters. */
  method Hptime2TimeStr(hptime: int) returns (timestr: Option<string>, datepath: string)
    ensures timestr == (if -999 <= TmOf(hptime).year <= 9999 then Some(NameOf(hptime)) else None)
    ensures timestr.Some? ==> datepath == DirPath(TmOf(hptime).year, DateFields(TmOf(hptime)))
    ensures forall tm: Tm :: Valid(tm) && PosixSeconds(tm) == hptime / 1000000 ==>
              && (timestr.Some? <==> -999 <= tm.year <= 9999)
              && (timestr.Some? ==>
                    && ShowsTime(timestr.value, tm, hptime % 1000000 / 1000)
                    && |datepath| == 16 && ShowsDate(datepath, tm, '/'))
  {
    hide Gmtime;
    hide TimeStr;
    hide Year4;
    hide Rest;
    hide ShowsTime;
    hide ShowsDate;
    datepath := "";
    var isec := Quot(hptime, HPTMODULUS);
    var ifract := hptime - isec * HPTMODULUS;
    // adjust for negative epoch times
    if hptime < 0 && ifract != 0 {
      isec := isec - 1;
      ifract := HPTMODULUS - (-ifract);
    }
    EpochSplit(hptime, isec, ifract);
    var tms := Gmtime(isec);
    ifract := Quot(ifract, HPTMODULUS / 1000);
    OnlyTm(hptime, tms);
    var text := TimeStr(tms, ifract);
    Lengths(tms, ifract);
    if |text| != 23 {
      return None, datepath;
    }
    datepath := DirPath(tms.year, DateFields(tms));
    if |datepath| != 16 {
      return None, datepath;
    }
    NameShows(tms, ifract);
    DateShows(tms, '/');
    return Some(text), datepath;
  }

  /** A time has one broken-down form. */
  lemma OnlyTm(t: int, tm: Tm)
    requires Valid(tm) && PosixSeconds(tm) == t / 1000000
    ensures tm == TmOf(t)
    ensures forall other: Tm :: Valid(other) && PosixSeconds(other) == t / 1000000 ==> other == tm
  {
    hide Gmtime;
    hide PosixSeconds;
    GmtimeUnique(t / 1000000, tm);
    forall other: Tm | Valid(other) && PosixSeconds(other) == t / 1000000
      ensures other == tm
    {
      GmtimeUnique(t / 1000000, other);
    }
  }

  lemma Value2(a: nat, b: nat)
    requires a < 10 && b < 10
    ensures Value([DigitChar(a), DigitChar(b)]) == 10 * a + b
  {
    var s := [DigitChar(a), DigitChar(b)];
    assert s[..1] == [DigitChar(a)] && [DigitChar(a)][..0] == "";
    assert Value([DigitChar(a)]) == a;
  }

  lemma Value3(a: nat, b: nat, c: nat)
    requires a < 10 && b < 10 && c < 10
    ensures Value([DigitChar(a), DigitChar(b), DigitChar(c)]) == 100 * a + 10 * b + c
  {
    var s := [DigitChar(a), DigitChar(b), DigitChar(c)];
    assert s[..2] == [DigitChar(a), DigitChar(b)];
    Value2(a, b);
  }

  lemma Digits2Read(n: nat)
    requires n < 100
    ensures |Digits(n, 2)| == 2 && Reads(Digits(n, 2), 0, 2, n)
  {
    hide Digits;
    hide Value;
    Digits2(n);
    Value2(n / 10, n % 10);
    assert Digits(n, 2)[0..2] == Digits(n, 2);
  }

  lemma Digits3Read(n: nat)
    requires n < 1000
    ensures |Digits(n, 3)| == 3 && Reads(Digits(n, 3), 0, 3, n)
  {
    hide Digits;
    hide Value;
    Digits3(n);
    Hundreds3(n);
    Value3(n / 100, n / 10 % 10, n % 10);
    assert Digits(n, 3)[0..3] == Digits(n, 3);
  }

  /** A field of a text reads as what it was printed from. */
  lemma FieldReads(text: string, i: nat, field: string, n: int)
    requires i + |field| <= |text| && text[i..i + |field|] == field && Reads(field, 0, |field|, n)
    ensures Reads(text, i, i + |field|, n)
  {
    assert field[0..|field|] == field;
  }

  lemma YearShows(y: int)
    requires -999 <= y <= 9999
    ensures |Year4(y)| == 4 && Parse(Year4(y)) == y && (0 <= y < 1000 ==> Year4(y)[0] == ' ')
  {
    hide Year4;
    hide Parse;
    Year4Length(y);
    Year4Reads(y);
    if 0 <= y {
      Year4Digits(y);
    }
  }

  lemma Parts(y: string, f: seq<nat>, sep: char)
    requires |y| == 4 && TwoDigits(f) && |f| == 4
    ensures var text := y + Rest(f, sep);
            && |text| == 16 && text[..4] == y
            && text[4] == sep && text[7] == sep && text[10] == sep && text[13] == sep
            && text[5..7] == Digits(f[0], 2) && text[8..10] == Digits(f[1], 2)
            && text[11..13] == Digits(f[2], 2) && text[14..16] == Digits(f[3], 2)
  {
    hide Digits;
    var a, b, c, d := Digits(f[0], 2), Digits(f[1], 2), Digits(f[2], 2), Digits(f[3], 2);
    Digits2Read(f[0]);
    Digits2Read(f[1]);
    Digits2Read(f[2]);
    Digits2Read(f[3]);
    assert Rest(f, sep) == [sep] + a + ([sep] + b + ([sep] + c + ([sep] + d))) by {
      hide Reads;
      assert f[1..][1..] == f[2..] && f[2..][1..] == f[3..] && f[3..][1..] == [];
      assert Rest(f[3..], sep) == [sep] + d + "";
      assert Rest(f[2..], sep) == [sep] + c + Rest(f[3..], sep);
      assert Rest(f[1..], sep) == [sep] + b + Rest(f[2..], sep);
    }
  }

  lemma DateShows(tm: Tm, sep: char)
    requires Valid(tm) && -999 <= tm.year <= 9999
    ensures var text := Year4(tm.year) + Rest(DateFields(tm), sep);
            |text| == 16 && ShowsDate(text, tm, sep)
  {
    hide Year4;
    hide Rest;
    hide Digits;
    hide Parse;
    hide Reads;
    var text := Year4(tm.year) + Rest(DateFields(tm), sep);
    YearShows(tm.year);
    Parts(Year4(tm.year), DateFields(tm), sep);
    Digits2Read(tm.mon);
    Digits2Read(tm.mday);
    Digits2Read(tm.hour);
    Digits2Read(tm.min);
    FieldReads(text, 5, Digits(tm.mon, 2), tm.mon);
    FieldReads(text, 8, Digits(tm.mday, 2), tm.mday);
    FieldReads(text, 11, Digits(tm.hour, 2), tm.hour);
    FieldReads(text, 14, Digits(tm.min, 2), tm.min);
  }

  lemma NameShows(tm: Tm, ms: nat)
    requires Valid(tm) && -999 <= tm.year <= 9999 && ms < 1000
    ensures ShowsTime(TimeStr(tm, ms), tm, ms)
  {
    hide Year4;
    hide Rest;
    hide Digits;
    hide ShowsDate;
    hide Reads;
    var date := Year4(tm.year) + Rest(DateFields(tm), '.');
    var text := TimeStr(tm, ms);
    DateShows(tm, '.');
    RestSnoc(DateFields(tm), tm.sec, '.');
    Digits2Read(tm.sec);
    Digits3Read(ms);
    assert text == date + (['.'] + Digits(tm.sec, 2)) + "." + Digits(ms, 3) by {
      Assoc(Year4(tm.year), Rest(DateFields(tm), '.'), ['.'] + Digits(tm.sec, 2));
    }
    ShowsPrefix(date, text, tm, '.');
    FieldReads(text, 17, Digits(tm.sec, 2), tm.sec);
    FieldReads(text, 20, Digits(ms, 3), ms);
  }

  lemma ShowsPrefix(date: string, text: string, tm: Tm, sep: char)
    requires |date| == 16 <= |text| && text[..16] == date && ShowsDate(date, tm, sep)
    ensures ShowsDate(text, tm, sep)
  {
    hide Parse;
    hide Value;
    assert text[..4] == date[..4] && text[5..7] == date[5..7] && text[8..10] == date[8..10];
    assert text[11..13] == date[11..13] && text[14..16] == date[14..16];
  }

  lemma EpochSplit(t: int, isec: int, ifract: int)
    requires t == isec * HPTMODULUS + ifract && 0 <= ifract < HPTMODULUS
    ensures isec == Second(t) && ifract == t % HPTMODULUS
  {
  }

  lemma {:induction false} PadLength(s: string, width: nat, fill: char)
    ensures |Pad(s, width, fill)| == if |s| >= width then |s| else width
    decreases width - |s|
  {
    if |s| < width {
      PadLength([fill] + s, width, fill);
    }
  }

  lemma DecimalDigits(n: nat)
    ensures n < 10 ==> Decimal(n) == [DigitChar(n)]
    ensures 10 <= n < 100 ==> Decimal(n) == [DigitChar(n / 10), DigitChar(n % 10)]
    ensures 100 <= n < 1000 ==> Decimal(n) == [DigitChar(n / 100), DigitChar(n / 10 % 10), DigitChar(n % 10)]
  {
    hide Decimal;
    DecimalStep(n);
    DecimalStep(n / 10);
    if 100 <= n < 1000 {
      DecimalStep(n / 10 / 10);
      assert n / 10 / 10 == n / 100;
    }
  }

  lemma DecimalStep(n: nat)
    ensures Decimal(n) == if n < 10 then [DigitChar(n)] else Decimal(n / 10) + [DigitChar(n % 10)]
  {
  }

  lemma {:induction false} LongDecimal(n: nat, k: nat)
    requires n >= Pow10(k)
    ensures |Decimal(n)| > k
    decreases k
  {
    if k > 0 {
      LongDecimal(n / 10, k - 1);
    }
  }

  function Fill(fill: char, k: nat): string {
    seq(k, i => fill)
  }

  lemma {:induction false} PadIs(s: string, k: nat, fill: char)
    ensures Pad(s, |s| + k, fill) == Fill(fill, k) + s
    decreases k
  {
    if k == 0 {
      assert Fill(fill, 0) + s == s;
    } else {
      PadIs([fill] + s, k - 1, fill);
      assert Fill(fill, k - 1) + ([fill] + s) == Fill(fill, k) + s;
    }
  }

  lemma Digits2(n: nat)
    requires n < 100
    ensures Digits(n, 2) == [DigitChar(n / 10), DigitChar(n % 10)]
  {
    DecimalDigits(n);
    PadIs(Decimal(n), 2 - |Decimal(n)|, '0');
  }

  lemma Digits3(n: nat)
    requires n < 1000
    ensures Digits(n, 3) == [DigitChar(n / 100), DigitChar(n / 10 % 10), DigitChar(n % 10)]
  {
    DecimalDigits(n);
    PadIs(Decimal(n), 3 - |Decimal(n)|, '0');
  }

  /** A year between 0 and 9999 in four characters, blanks in front. */
  function YearChars(y: nat): string
    requires y < 10000
  {
    [if y >= 1000 then DigitChar(y / 1000) else ' ',
     if y >= 100 then DigitChar(y / 100 % 10) else ' ',
     if y >= 10 then DigitChar(y / 10 % 10) else ' ',
     DigitChar(y % 10)]
  }

  lemma Year4Digits(y: nat)
    requires y < 10000
    ensures Year4(y) == YearChars(y)
  {
    if y >= 1000 {
      LongYear(y);
    } else {
      DecimalDigits(y);
      PadIs(Decimal(y), 4 - |Decimal(y)|, ' ');
    }
  }

  lemma LongYear(y: nat)
    requires 1000 <= y < 10000
    ensures Year4(y) == YearChars(y)
  {
    DecimalDigits(y / 10);
    assert Decimal(y) == Decimal(y / 10) + [DigitChar(y % 10)];
    assert y / 10 / 100 == y / 1000 && y / 10 / 10 == y / 100;
  }

  lemma Year4Length(y: int)
    ensures |Year4(y)| == 4 <==> -999 <= y <= 9999
    ensures |Year4(y)| >= 4
  {
    PadLength(DecimalInt(y), 4, ' ');
    var n := if y < 0 then -y else y;
    assert Pow10(4) == 10000;
    assert Pow10(3) == 1000;
    if n >= 10000 {
      LongDecimal(n, 4);
    } else {
      DecimalLength(n, 4);
    }
    if n >= 1000 {
      LongDecimal(n, 3);
    } else {
      DecimalLength(n, 3);
    }
  }

  ghost predicate TwoDigits(fields: seq<nat>) {
    forall i :: 0 <= i < |fields| ==> fields[i] < 100
  }

  lemma {:induction false} RestLength(fields: seq<nat>, sep: char)
    requires TwoDigits(fields)
    ensures |Rest(fields, sep)| == 3 * |fields|
  {
    if fields != [] {
      Digits2(fields[0]);
      RestLength(fields[1..], sep);
    }
  }

  lemma Lengths(tm: Tm, ms: nat)
    requires Valid(tm) && ms < 1000
    ensures |TimeStr(tm, ms)| == 23 <==> -999 <= tm.year <= 9999
    ensures |DirPath(tm.year, DateFields(tm))| == 16 <==> -999 <= tm.year <= 9999
  {
    Year4Length(tm.year);
    RestLength(DateFields(tm) + [tm.sec], '.');
    RestLength(DateFields(tm), '/');
    Digits3(ms);
  }

  // ---------- String order ----------

  /** The order of `strcmp`. */
  predicate Less(s: string, t: string) {
    t != "" && (s == "" || s[0] < t[0] || (s[0] == t[0] && Less(s[1..], t[1..])))
  }

  lemma {:induction false} LessAppend(a: string, s: string, b: string, t: string)
    requires |a| == |b|
    ensures Less(a + s, b + t) <==> Less(a, b) || (a == b && Less(s, t))
  {
    if a == "" {
      assert a + s == s && b + t == t;
    } else {
      assert (a + s)[1..] == a[1..] + s && (b + t)[1..] == b[1..] + t;
      LessAppend(a[1..], s, b[1..], t);
      assert a == [a[0]] + a[1..] && b == [b[0]] + b[1..];
    }
  }

  lemma LessCons(x: char, s: string, y: char, t: string)
    ensures Less([x] + s, [y] + t) <==> x < y || (x == y && Less(s, t))
  {
  }

  lemma Digits2Order(m: nat, n: nat)
    requires m < 100 && n < 100
    ensures Less(Digits(m, 2), Digits(n, 2)) <==> m < n
    ensures Digits(m, 2) == Digits(n, 2) <==> m == n
  {
    hide Digits;
    hide Less;
    Digits2(m);
    Digits2(n);
    Less2(DigitChar(m / 10), DigitChar(m % 10), DigitChar(n / 10), DigitChar(n % 10));
  }

  lemma Less2(a: char, b: char, c: char, d: char)
    ensures Less([a, b], [c, d]) <==> a < c || (a == c && b < d)
  {
    assert [a, b] == [a] + [b] && [c, d] == [c] + [d];
    LessCons(a, [b], c, [d]);
  }

  lemma Less3(a: char, b: char, c: char, d: char, e: char, f: char)
    ensures Less([a, b, c], [d, e, f]) <==> a < d || (a == d && (b < e || (b == e && c < f)))
  {
    assert [a, b, c] == [a] + [b, c] && [d, e, f] == [d] + [e, f];
    LessCons(a, [b, c], d, [e, f]);
    Less2(b, c, e, f);
  }

  lemma Hundreds3(m: nat)
    requires m < 1000
    ensures m == m / 100 * 100 + m / 10 % 10 * 10 + m % 10 && m / 100 < 10
  {
  }

  lemma Digits3Order(m: nat, n: nat)
    requires m < 1000 && n < 1000
    ensures Less(Digits(m, 3), Digits(n, 3)) <==> m < n
    ensures Digits(m, 3) == Digits(n, 3) <==> m == n
  {
    hide Digits;
    hide Less;
    Digits3(m);
    Digits3(n);
    Hundreds3(m);
    Hundreds3(n);
    Less3(DigitChar(m / 100), DigitChar(m / 10 % 10), DigitChar(m % 10),
          DigitChar(n / 100), DigitChar(n / 10 % 10), DigitChar(n % 10));
  }

  /** The codes of a blank and of a digit. */
  function Code(shown: bool, d: nat): nat {
    if shown then 48 + d else 32
  }

  predicate Before4(a: nat, b: nat, c: nat, d: nat, e: nat, f: nat, g: nat, h: nat) {
    a < e || (a == e && (b < f || (b == f && (c < g || (c == g && d < h)))))
  }

  lemma CodesOrder(y: nat, a: nat, b: nat, c: nat, d: nat, z: nat, e: nat, f: nat, g: nat, h: nat)
    requires a < 10 && b < 10 && c < 10 && d < 10 && e < 10 && f < 10 && g < 10 && h < 10
    requires y == 1000 * a + 100 * b + 10 * c + d && z == 1000 * e + 100 * f + 10 * g + h
    requires y < z
    ensures Before4(Code(y >= 1000, a), Code(y >= 100, b), Code(y >= 10, c), d + 48,
                    Code(z >= 1000, e), Code(z >= 100, f), Code(z >= 10, g), h + 48)
  {
  }

  lemma YearDigits(y: nat)
    requires y < 10000
    ensures y == 1000 * (y / 1000) + 100 * (y / 100 % 10) + 10 * (y / 10 % 10) + y % 10
    ensures y / 1000 < 10
  {
    var t, h := y / 10, y / 100;
    assert t / 10 == h && h / 10 == y / 1000;
    assert y == 10 * t + y % 10;
    assert t == 10 * h + t % 10;
    assert h == 10 * (h / 10) + h % 10;
  }

  lemma YearCharsCode(y: nat)
    requires y < 10000
    ensures var a := YearChars(y);
            && |a| == 4
            && a[0] as int == Code(y >= 1000, y / 1000) && a[1] as int == Code(y >= 100, y / 100 % 10)
            && a[2] as int == Code(y >= 10, y / 10 % 10) && a[3] as int == y % 10 + 48
  {
  }

  lemma YearCharsOrder(y: nat, z: nat)
    requires y < z < 10000
    ensures var a, b := YearChars(y), YearChars(z);
            && |a| == |b| == 4
            && Before4(a[0] as int, a[1] as int, a[2] as int, a[3] as int,
                       b[0] as int, b[1] as int, b[2] as int, b[3] as int)
  {
    hide YearChars;
    hide Code;
    hide Before4;
    YearDigits(y);
    YearDigits(z);
    YearCharsCode(y);
    YearCharsCode(z);
    CodesOrder(y, y / 1000, y / 100 % 10, y / 10 % 10, y % 10, z, z / 1000, z / 100 % 10, z / 10 % 10, z % 10);
  }

  lemma Year4Order(y: nat, z: nat)
    requires y < 10000 && z < 10000
    ensures Less(Year4(y), Year4(z)) <==> y < z
    ensures Year4(y) == Year4(z) <==> y == z
  {
    hide Year4;
    hide Less;
    Year4Digits(y);
    Year4Digits(z);
    var a, b := YearChars(y), YearChars(z);
    assert a == [a[0]] + [a[1], a[2], a[3]] && b == [b[0]] + [b[1], b[2], b[3]];
    hide YearChars;
    if y < z {
      YearCharsOrder(y, z);
    }
    if z < y {
      YearCharsOrder(z, y);
    }
    LessCons(a[0], [a[1], a[2], a[3]], b[0], [b[1], b[2], b[3]]);
    Less3(a[1], a[2], a[3], b[1], b[2], b[3]);
  }

  /** Number lists of one length in dictionary order. */
  predicate Earlier(f: seq<int>, g: seq<int>)
    requires |f| == |g|
  {
    f != [] && (f[0] < g[0] || (f[0] == g[0] && Earlier(f[1..], g[1..])))
  }

  /** One more field: the separators agree, so the field decides, then what follows it. */
  lemma FieldOrder(m: nat, s: string, n: nat, t: string, sep: char)
    requires m < 100 && n < 100
    ensures Less([sep] + Digits(m, 2) + s, [sep] + Digits(n, 2) + t) <==> m < n || (m == n && Less(s, t))
    ensures [sep] + Digits(m, 2) + s == [sep] + Digits(n, 2) + t <==> m == n && s == t
  {
    hide Digits;
    hide Less;
    Digits2(m);
    Digits2(n);
    Digits2Order(m, n);
    var a, b := Digits(m, 2) + s, Digits(n, 2) + t;
    LessCons(sep, a, sep, b);
    LessAppend(Digits(m, 2), s, Digits(n, 2), t);
    assert [sep] + Digits(m, 2) + s == [sep] + a && [sep] + Digits(n, 2) + t == [sep] + b;
    assert ([sep] + a)[1..] == a && ([sep] + b)[1..] == b;
    assert a[..2] == Digits(m, 2) && b[..2] == Digits(n, 2) && a[2..] == s && b[2..] == t;
  }

  lemma {:induction false} RestOrder(f: seq<nat>, g: seq<nat>, sep: char, s: string, t: string)
    requires |f| == |g| && TwoDigits(f) && TwoDigits(g)
    ensures Less(Rest(f, sep) + s, Rest(g, sep) + t) <==> Earlier(f, g) || (f == g && Less(s, t))
    ensures Rest(f, sep) + s == Rest(g, sep) + t <==> f == g && s == t
  {
    hide Digits;
    hide Less;
    if f == [] {
      assert Rest(f, sep) + s == s && Rest(g, sep) + t == t;
    } else {
      RestOrder(f[1..], g[1..], sep, s, t);
      FieldOrder(f[0], Rest(f[1..], sep) + s, g[0], Rest(g[1..], sep) + t, sep);
      Assoc([sep] + Digits(f[0], 2), Rest(f[1..], sep), s);
      Assoc([sep] + Digits(g[0], 2), Rest(g[1..], sep), t);
      assert f == [f[0]] + f[1..] && g == [g[0]] + g[1..];
    }
  }

  // ---------- Main results ----------

  ghost predicate FourDigitYear(t: int) {
    0 <= TmOf(t).year <= 9999
  }

  function NameOf(t: int): string {
    TimeStr(TmOf(t), MsOf(t))
  }

  /** Calendar fields from the month on. */
  function Fields(tm: Tm): seq<nat> {
    DateFields(tm) + [tm.sec]
  }

  lemma EarlierFields(a: Tm, b: Tm)
    ensures Earlier(Fields(a), Fields(b)) <==>
            a.mon < b.mon || (a.mon == b.mon &&
              (a.mday < b.mday || (a.mday == b.mday &&
                (a.hour < b.hour || (a.hour == b.hour &&
                  (a.min < b.min || (a.min == b.min && a.sec < b.sec)))))))
  {
    var f, g := Fields(a), Fields(b);
    hide Earlier;
    assert f[0..] == f && g[0..] == g;
    EarlierAt(f, g, 0);
    EarlierAt(f, g, 1);
    EarlierAt(f, g, 2);
    EarlierAt(f, g, 3);
    EarlierAt(f, g, 4);
    EarlierAt(f, g, 5);
  }

  lemma EarlierAt(f: seq<int>, g: seq<int>, k: nat)
    requires |f| == |g| && k <= |f|
    ensures Earlier(f[k..], g[k..]) <==>
            k < |f| && (f[k] < g[k] || (f[k] == g[k] && Earlier(f[k + 1..], g[k + 1..])))
  {
  }

  /** Earlier in the calendar and on the clock is fewer seconds. */
  lemma FieldsOrder(a: Tm, b: Tm)
    requires Valid(a) && Valid(b)
    requires a.year < b.year || (a.year == b.year && Earlier(Fields(a), Fields(b)))
    ensures PosixSeconds(a) < PosixSeconds(b)
  {
    EarlierFields(a, b);
    DateOrder(a, b);
    hide Days;
    assert Days(a) <= Days(b) by {
      SameDate(a, b);
    }
  }

  lemma SameDate(a: Tm, b: Tm)
    ensures a.year == b.year && a.mon == b.mon && a.mday == b.mday ==> Days(a) == Days(b)
  {
  }

  /** The calendar order is the order of the seconds. */
  lemma SecondsOrder(a: Tm, b: Tm)
    requires Valid(a) && Valid(b)
    ensures PosixSeconds(a) < PosixSeconds(b) <==>
            a.year < b.year || (a.year == b.year && Earlier(Fields(a), Fields(b)))
    ensures PosixSeconds(a) == PosixSeconds(b) <==> a.year == b.year && Fields(a) == Fields(b)
  {
    hide PosixSeconds;
    EarlierFields(a, b);
    EarlierFields(b, a);
    var f, g := Fields(a), Fields(b);
    assert [f[0], f[1], f[2], f[3], f[4]] == f && [g[0], g[1], g[2], g[3], g[4]] == g;
    if a.year < b.year || (a.year == b.year && Earlier(f, g)) {
      FieldsOrder(a, b);
    } else if b.year < a.year || Earlier(g, f) {
      FieldsOrder(b, a);
    } else {
      assert a == b;
    }
  }

  lemma NameOrder(t: int, u: int)
    requires FourDigitYear(t) && FourDigitYear(u)
    ensures var a, b := TmOf(t), TmOf(u);
            && (Less(NameOf(t), NameOf(u)) <==>
                  a.year < b.year || (a.year == b.year &&
                    (Earlier(Fields(a), Fields(b)) || (Fields(a) == Fields(b) && MsOf(t) < MsOf(u)))))
            && (NameOf(t) == NameOf(u) <==>
                  a.year == b.year && Fields(a) == Fields(b) && MsOf(t) == MsOf(u))
  {
    hide Gmtime;
    var a, b := TmOf(t), TmOf(u);
    var s, s' := "." + Digits(MsOf(t), 3), "." + Digits(MsOf(u), 3);
    hide Digits;
    hide Less;
    Assoc(Year4(a.year) + Rest(Fields(a), '.'), ".", Digits(MsOf(t), 3));
    Assoc(Year4(b.year) + Rest(Fields(b), '.'), ".", Digits(MsOf(u), 3));
    Assoc(Year4(a.year), Rest(Fields(a), '.'), s);
    Assoc(Year4(b.year), Rest(Fields(b), '.'), s');
    Year4Length(a.year);
    Year4Length(b.year);
    Year4Order(a.year, b.year);
    LessAppend(Year4(a.year), Rest(Fields(a), '.') + s, Year4(b.year), Rest(Fields(b), '.') + s');
    RestOrder(Fields(a), Fields(b), '.', s, s');
    LessCons('.', Digits(MsOf(t), 3), '.', Digits(MsOf(u), 3));
    Digits3Order(MsOf(t), MsOf(u));
    assert s[1..] == Digits(MsOf(t), 3) && s'[1..] == Digits(MsOf(u), 3);
    assert NameOf(t)[..4] == Year4(a.year) && NameOf(u)[..4] == Year4(b.year);
    assert NameOf(t)[4..] == Rest(Fields(a), '.') + s && NameOf(u)[4..] == Rest(Fields(b), '.') + s';
  }

  lemma MilliSplit(t: int)
    ensures Milli(t) == Second(t) * 1000 + MsOf(t) && MsOf(t) < 1000
  {
  }

  /** File names keep time order: for years of four digits, before and after 1970, names compare as their
      milliseconds do, and only times in the same millisecond share a name. */
  lemma NamesKeepTimeOrder(t: int, u: int)
    requires FourDigitYear(t) && FourDigitYear(u)
    ensures Less(NameOf(t), NameOf(u)) <==> Milli(t) < Milli(u)
    ensures NameOf(t) == NameOf(u) <==> Milli(t) == Milli(u)
  {
    hide Less;
    hide TimeStr;
    hide MsOf;
    hide Second;
    hide Milli;
    hide PosixSeconds;
    hide Earlier;
    NameOrder(t, u);
    MilliSplit(t);
    MilliSplit(u);
    SecondsOrder(TmOf(t), TmOf(u));
    assert PosixSeconds(TmOf(t)) == Second(t) && PosixSeconds(TmOf(u)) == Second(u);
  }

  // ---------- Directory paths ----------

  /** The directory of a time: year, month, day, hour and minute. */
  function DateDir(t: int): (d: seq<int>)
    ensures |d| == 5
  {
    var tm := TmOf(t);
    [tm.year] + DateFields(tm)
  }

  /** The printed path of a directory: the fields of its levels. */
  function DirPath(year: int, fields: seq<nat>): string {
    Year4(year) + Rest(fields, '/')
  }

  /** Cutting three characters off the printed path gives the path of the directory above. */
  lemma ParentPath(year: int, fields: seq<nat>)
    requires fields != [] && TwoDigits(fields)
    ensures var path := DirPath(year, fields);
            |path| >= 3 && path[..|path| - 3] == DirPath(year, fields[..|fields| - 1])
  {
    RestSnoc(fields[..|fields| - 1], fields[|fields| - 1], '/');
    assert fields == fields[..|fields| - 1] + [fields[|fields| - 1]];
    Digits2(fields[|fields| - 1]);
  }

  lemma {:induction false} RestSnoc(fields: seq<nat>, last: nat, sep: char)
    ensures Rest(fields + [last], sep) == Rest(fields, sep) + ([sep] + Digits(last, 2))
  {
    hide Digits;
    if fields == [] {
      assert ([] + [last])[1..] == [];
      assert Rest([last], sep) == [sep] + Digits(last, 2) + Rest([], sep) by {
        assert [last][1..] == [];
      }
    } else {
      RestSnoc(fields[1..], last, sep);
      assert (fields + [last])[1..] == fields[1..] + [last];
      Assoc([sep] + Digits(fields[0], 2), Rest(fields[1..], sep), [sep] + Digits(last, 2));
    }
  }

  lemma SpaceBefore(s: string)
    ensures Parse([' '] + s) == Parse(s)
  {
    hide Leading;
    assert ([' '] + s)[1..] == s;
    assert SkipSpace([' '] + s) == SkipSpace(s);
  }

  lemma {:induction false} PadSpaces(s: string, width: nat)
    ensures Parse(Pad(s, width, ' ')) == Parse(s)
    decreases width - |s|
  {
    hide Parse;
    if |s| < width {
      SpaceBefore(s);
      PadSpaces([' '] + s, width);
    }
  }

  /** A printed year reads back as the year, so different years are printed differently. */
  lemma Year4Reads(y: int)
    ensures Parse(Year4(y)) == y
  {
    hide Parse;
    PadSpaces(DecimalInt(y), 4);
    ParseDecimalInt(y);
  }

  /** Different directories have different paths, for all years that are printed in four characters. */
  lemma PathsDistinct(year: int, fields: seq<nat>, year': int, fields': seq<nat>)
    requires |fields| == |fields'| && TwoDigits(fields) && TwoDigits(fields')
    requires -999 <= year <= 9999 && -999 <= year' <= 9999
    ensures DirPath(year, fields) == DirPath(year', fields') <==> year == year' && fields == fields'
  {
    hide Year4;
    var p, q := DirPath(year, fields), DirPath(year', fields');
    Year4Length(year);
    Year4Length(year');
    Year4Reads(year);
    Year4Reads(year');
    RestOrder(fields, fields', '/', "", "");
    assert Rest(fields, '/') + "" == Rest(fields, '/') && Rest(fields', '/') + "" == Rest(fields', '/');
    assert p[..4] == Year4(year) && q[..4] == Year4(year');
    assert p[4..] == Rest(fields, '/') && q[4..] == Rest(fields', '/');
  }

  /** Names are distinct for all years that are printed in four characters. */
  lemma NamesDistinct(t: int, u: int)
    requires -999 <= TmOf(t).year <= 9999 && -999 <= TmOf(u).year <= 9999
    ensures NameOf(t) == NameOf(u) <==> Milli(t) == Milli(u)
  {
    hide Gmtime;
    hide PosixSeconds;
    hide Milli;
    hide Second;
    hide MsOf;
    hide NameOf;
    hide Year4;
    hide Digits;
    hide Parse;
    hide Rest;
    hide Earlier;
    var a, b := TmOf(t), TmOf(u);
    var s, s' := "." + Digits(MsOf(t), 3), "." + Digits(MsOf(u), 3);
    MilliSplit(t);
    MilliSplit(u);
    SecondsOrder(a, b);
    NameParts(t);
    NameParts(u);
    Year4Length(a.year);
    Year4Length(b.year);
    Year4Reads(a.year);
    Year4Reads(b.year);
    RestOrder(Fields(a), Fields(b), '.', s, s');
    Digits3Order(MsOf(t), MsOf(u));
    assert s[1..] == Digits(MsOf(t), 3) && s'[1..] == Digits(MsOf(u), 3);
    assert NameOf(t)[..4] == Year4(a.year) && NameOf(u)[..4] == Year4(b.year);
    assert NameOf(t)[4..] == Rest(Fields(a), '.') + s && NameOf(u)[4..] == Rest(Fields(b), '.') + s';
    assert PosixSeconds(a) == Second(t) && PosixSeconds(b) == Second(u);
  }

  lemma NameParts(t: int)
    ensures NameOf(t) == Year4(TmOf(t).year) + (Rest(Fields(TmOf(t)), '.') + ("." + Digits(MsOf(t), 3)))
  {
    hide Gmtime;
    hide Digits;
    hide Year4;
    var a := TmOf(t);
    Assoc(Year4(a.year) + Rest(Fields(a), '.'), ".", Digits(MsOf(t), 3));
    Assoc(Year4(a.year), Rest(Fields(a), '.'), "." + Digits(MsOf(t), 3));
  }

  // ---------- Years with a minus sign ----------

  function MinusChars(n: nat): string
    requires 0 < n < 1000
  {
    [if n >= 100 then '-' else ' ',
     if n >= 100 then DigitChar(n / 100) else if n >= 10 then '-' else ' ',
     if n >= 10 then DigitChar(n / 10 % 10) else '-',
     DigitChar(n % 10)]
  }

  lemma MinusYear(n: int)
    requires 0 < n < 1000
    ensures Year4(-n) == MinusChars(n)
  {
    DecimalDigits(n);
    assert DecimalInt(-n) == "-" + Decimal(n);
    PadIs(DecimalInt(-n), 4 - |DecimalInt(-n)|, ' ');
  }

  /** Names of years with a minus sign sort against time: a year further back has the greater name. */
  lemma MinusYearsReversed(t: int, u: int)
    requires -999 <= TmOf(t).year < TmOf(u).year < 0
    ensures Less(NameOf(u), NameOf(t)) && Milli(t) < Milli(u)
  {
    hide Gmtime;
    hide Less;
    hide Milli;
    hide MsOf;
    hide Second;
    hide PosixSeconds;
    var m: int, n: int := -TmOf(t).year, -TmOf(u).year;
    MinusYear(m);
    MinusYear(n);
    NameParts(t);
    NameParts(u);
    hide NameOf;
    hide Year4;
    MinusOrder(n, m);
    hide MinusChars;
    LessAppend(Year4(-n), Rest(Fields(TmOf(u)), '.') + ("." + Digits(MsOf(u), 3)),
               Year4(-m), Rest(Fields(TmOf(t)), '.') + ("." + Digits(MsOf(t), 3)));
    MilliSplit(t);
    MilliSplit(u);
    SecondsOrder(TmOf(t), TmOf(u));
    assert PosixSeconds(TmOf(t)) == Second(t) && PosixSeconds(TmOf(u)) == Second(u);
  }

  lemma MinusOrder(n: nat, m: nat)
    requires 0 < n < m < 1000
    ensures Less(MinusChars(n), MinusChars(m)) && |MinusChars(n)| == |MinusChars(m)|
  {
    hide Less;
    var a, b := MinusChars(n), MinusChars(m);
    assert a == [a[0]] + [a[1], a[2], a[3]] && b == [b[0]] + [b[1], b[2], b[3]];
    MinusCodes(n, m);
    LessCons(a[0], [a[1], a[2], a[3]], b[0], [b[1], b[2], b[3]]);
    Less3(a[1], a[2], a[3], b[1], b[2], b[3]);
  }

  lemma MinusCodes(n: nat, m: nat)
    requires 0 < n < m < 1000
    ensures var a, b := MinusChars(n), MinusChars(m);
            a[0] < b[0] || (a[0] == b[0] &&
              (a[1] < b[1] || (a[1] == b[1] && (a[2] < b[2] || (a[2] == b[2] && a[3] < b[3])))))
  {
    Hundreds3(n);
    Hundreds3(m);
  }
}
