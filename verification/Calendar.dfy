/** The calendar of `gmtime_r`: seconds since the epoch by the formula of POSIX.1-2017 Base Definitions,
    section 4.16, with divisions rounded down so that it also covers years before 1970. */
module Calendar {

  /** Broken-down time with the full year and months from 1. */
  datatype Tm = Tm(year: int, mon: nat, mday: nat, hour: nat, min: nat, sec: nat)

  predicate Leap(y: int) {
    y % 4 == 0 && (y % 100 != 0 || y % 400 == 0)
  }

  function MonthLen(y: int, m: nat): (n: nat)
    ensures 28 <= n <= 31
  {
    if m == 2 then (if Leap(y) then 29 else 28)
    else if m == 4 || m == 6 || m == 9 || m == 11 then 30
    else 31
  }

  function YearLen(y: int): nat {
    if Leap(y) then 366 else 365
  }

  /** Days of the year before month `m`. */
  function MonthStart(y: int, m: nat): nat {
    if m <= 1 then 0 else MonthStart(y, m - 1) + MonthLen(y, m - 1)
  }

  /** Days from the epoch to the first day of a year; the formula's `tm_year` is `y - 1900`. */
  function YearStart(y: int): int {
    (y - 1970) * 365 + Fours(y) - Centuries(y) + FourCenturies(y)
  }

  function Fours(y: int): int {
    (y - 1900 - 69) / 4
  }

  function Centuries(y: int): int {
    (y - 1900 - 1) / 100
  }

  function FourCenturies(y: int): int {
    (y - 1900 + 299) / 400
  }

  ghost predicate Valid(tm: Tm) {
    && 1 <= tm.mon <= 12 && 1 <= tm.mday <= MonthLen(tm.year, tm.mon)
    && tm.hour < 24 && tm.min < 60 && tm.sec < 60
  }

  function Days(tm: Tm): int {
    YearStart(tm.year) + MonthStart(tm.year, tm.mon) + tm.mday - 1
  }

  function PosixSeconds(tm: Tm): int {
    tm.sec + tm.min * 60 + tm.hour * 3600 + Days(tm) * 86400
  }

  /** Each division grows by one exactly after a multiple of its divisor. */
  lemma NextFours(y: int)
    ensures Fours(y + 1) == Fours(y) + if y % 4 == 0 then 1 else 0
  {
  }

  lemma NextCenturies(y: int)
    ensures Centuries(y + 1) == Centuries(y) + if y % 100 == 0 then 1 else 0
  {
  }

  lemma NextFourCenturies(y: int)
    ensures FourCenturies(y + 1) == FourCenturies(y) + if y % 400 == 0 then 1 else 0
  {
  }

  lemma LeapMultiples(y: int)
    ensures y % 400 == 0 ==> y % 100 == 0
    ensures y % 100 == 0 ==> y % 4 == 0
  {
  }

  lemma NextYear(y: int)
    ensures YearStart(y + 1) == YearStart(y) + YearLen(y)
  {
    hide Fours;
    hide Centuries;
    hide FourCenturies;
    NextFours(y);
    NextCenturies(y);
    NextFourCenturies(y);
    LeapMultiples(y);
  }

  lemma {:induction false} LaterYear(y: int, z: int)
    requires y < z
    ensures YearStart(y) + YearLen(y) <= YearStart(z)
    decreases z - y
  {
    NextYear(z - 1);
    if y < z - 1 {
      LaterYear(y, z - 1);
    }
  }

  lemma {:induction false} LaterMonth(y: int, m: nat, n: nat)
    requires 1 <= m < n
    ensures MonthStart(y, m) + MonthLen(y, m) <= MonthStart(y, n)
    decreases n
  {
    if m < n - 1 {
      LaterMonth(y, m, n - 1);
    }
  }

  /** Days before each month in a year that is not a leap year. */
  const DAYS_BEFORE: seq<nat> := [0, 31, 59, 90, 120, 151, 181, 212, 243, 273, 304, 334]

  lemma MonthStarts(y: int, m: nat)
    requires 1 <= m <= 12
    ensures MonthStart(y, m) == DAYS_BEFORE[m - 1] + if m > 2 && Leap(y) then 1 else 0
  {
    var leap := if Leap(y) then 1 else 0;
    assert MonthStart(y, 2) == 31;
    assert MonthStart(y, 3) == 59 + leap;
    assert MonthStart(y, 5) == 120 + leap;
    assert MonthStart(y, 7) == 181 + leap;
    assert MonthStart(y, 9) == 243 + leap;
    assert MonthStart(y, 11) == 304 + leap;
  }

  lemma YearIsMonths(y: int)
    ensures MonthStart(y, 12) + MonthLen(y, 12) == YearLen(y)
  {
    MonthStarts(y, 12);
  }

  lemma DayInYear(tm: Tm)
    requires Valid(tm)
    ensures 0 <= Days(tm) - YearStart(tm.year) < YearLen(tm.year)
  {
    YearIsMonths(tm.year);
    if tm.mon < 12 {
      LaterMonth(tm.year, tm.mon, 12);
    }
  }

  /** Earlier in the calendar: year first, then month, then day. */
  predicate DateBefore(a: Tm, b: Tm) {
    || a.year < b.year
    || (a.year == b.year && (a.mon < b.mon || (a.mon == b.mon && a.mday < b.mday)))
  }

  lemma DateOrder(a: Tm, b: Tm)
    requires Valid(a) && Valid(b)
    ensures DateBefore(a, b) ==> Days(a) < Days(b)
  {
    if a.year < b.year {
      LaterYear(a.year, b.year);
      DayInYear(a);
      DayInYear(b);
    } else if a.year == b.year && a.mon < b.mon {
      LaterMonth(a.year, a.mon, b.mon);
    }
  }

  /** Every time has a broken-down form, found by walking the years and then the months. */
  function YearOf(day: int, y: int): (r: int)
    ensures YearStart(r) <= day < YearStart(r + 1)
    decreases day < YearStart(y), if day < YearStart(y) then YearStart(y) - day else day - YearStart(y)
  {
    hide YearStart;
    NextYear(y);
    NextYear(y - 1);
    if day < YearStart(y) then YearOf(day, y - 1)
    else if day >= YearStart(y + 1) then YearOf(day, y + 1)
    else y
  }

  function MonthOf(y: int, yday: nat, m: nat): (r: nat)
    requires 1 <= m <= 12 && MonthStart(y, m) <= yday < YearLen(y)
    ensures 1 <= r <= 12 && MonthStart(y, r) <= yday < MonthStart(y, r) + MonthLen(y, r)
    decreases 12 - m
  {
    YearIsMonths(y);
    if yday < MonthStart(y, m) + MonthLen(y, m) then m else MonthOf(y, yday, m + 1)
  }

  function Gmtime(t: int): (tm: Tm)
    ensures Valid(tm) && PosixSeconds(tm) == t
  {
    var day, rest := t / 86400, t % 86400;
    var y := YearOf(day, 1970);
    NextYear(y);
    var yday := day - YearStart(y);
    var m := MonthOf(y, yday, 1);
    ClockSplit(rest);
    Tm(y, m, yday - MonthStart(y, m) + 1, rest / 3600, rest % 3600 / 60, rest % 60)
  }

  lemma ClockSplit(rest: nat)
    requires rest < 86400
    ensures rest == rest / 3600 * 3600 + rest % 3600 / 60 * 60 + rest % 60 && rest / 3600 < 24
  {
  }

  /** The broken-down form is the only valid one with that many seconds. */
  lemma GmtimeUnique(t: int, tm: Tm)
    requires Valid(tm) && PosixSeconds(tm) == t
    ensures tm == Gmtime(t)
  {
    var g := Gmtime(t);
    assert Days(tm) == t / 86400 && Days(g) == t / 86400;
    DateOrder(tm, g);
    DateOrder(g, tm);
  }

  // ---------- The formula, and a date ----------

  /** The seconds are those of the standard's formula, over the year since 1900 and the day of the year. */
  lemma PosixFormula(tm: Tm)
    requires Valid(tm)
    ensures var y := tm.year - 1900;
            var leap := tm.year % 4 == 0 && (tm.year % 100 != 0 || tm.year % 400 == 0);
            var yday := DAYS_BEFORE[tm.mon - 1] + tm.mday - 1 + if tm.mon > 2 && leap then 1 else 0;
            PosixSeconds(tm) == tm.sec + tm.min * 60 + tm.hour * 3600 + yday * 86400
                                + (y - 70) * 31536000 + (y - 69) / 4 * 86400 - (y - 1) / 100 * 86400
                                + (y + 299) / 400 * 86400
    ensures 1 <= tm.mday <= 31 && (tm.mon == 2 ==> tm.mday <= 29) && tm.hour <= 23 && tm.min <= 59 && tm.sec <= 59
  {
    hide MonthStart;
    MonthStarts(tm.year, tm.mon);
  }

  /** The epoch is the first of January 1970 at midnight. */
  lemma Epoch()
    ensures Gmtime(0) == Tm(1970, 1, 1, 0, 0, 0)
  {
    hide Gmtime;
    hide PosixSeconds;
    EpochSeconds();
    GmtimeUnique(0, Tm(1970, 1, 1, 0, 0, 0));
  }

  lemma EpochSeconds()
    ensures PosixSeconds(Tm(1970, 1, 1, 0, 0, 0)) == 0
  {
    assert MonthStart(1970, 1) == 0;
    assert Fours(1970) == 0 && Centuries(1970) == 0 && FourCenturies(1970) == 0;
  }
}
