/**
 Seconds since the epoch to calendar fields, by the two counting loops of nolocks_localtime.  The reference is the
 closed form of section 4.16, "Seconds Since the Epoch", of IEEE Std 1003.1-2017 (Base Definitions).
 */
module Calendar {

  /** The fields of struct tm that are set; year counts from 1900, mon and yday from 0. */
  datatype Time = Time(sec: int, min: int, hour: int, mday: int, mon: int, year: int, wday: int, yday: int, isdst: int)

  // ---- Years and months ----

  /** C's division and remainder: toward zero. */
  function Quot(a: int, b: int): int
    requires b > 0
  {
    if a >= 0 then a / b else -((-a) / b)
  }

  function Rem(a: int, b: int): int
    requires b > 0
  {
    a - b * Quot(a, b)
  }

  /** is_leap_year. */
  function IsLeapYear(year: nat): (r: int)
    ensures r == if year % 400 == 0 || (year % 4 == 0 && year % 100 != 0) then 1 else 0
  {
    if year % 4 != 0 then 0
    else if year % 100 != 0 then 1
    else if year % 400 != 0 then 0
    else 1
  }

  function YearDays(year: nat): int {
    365 + IsLeapYear(year)
  }

  /** Days from 1 January 1970 to 1 January of the year. */
  function YearStart(year: nat): (d: nat)
    requires year >= 1970
  {
    if year == 1970 then 0 else YearStart(year - 1) + YearDays(year - 1)
  }

  /** The same in the closed form of the standard. */
  function YearStartClosed(year: int): int {
    (year - 1970) * 365 + (year - 1969) / 4 - (year - 1901) / 100 + (year - 1601) / 400
  }

  lemma {:induction false} YearStartIs(year: nat)
    requires year >= 1970
    ensures YearStart(year) == YearStartClosed(year)
  {
    if year > 1970 {
      YearStartIs(year - 1);
      Every4(year - 1);
      Every100(year - 1);
      Every400(year - 1);
      Centuries(year - 1);
    }
  }

  lemma {:induction false} Every4(y: nat)
    ensures (y - 1968) / 4 == (y - 1969) / 4 + if y % 4 == 0 then 1 else 0
  {
  }

  lemma {:induction false} Every100(y: nat)
    ensures (y - 1900) / 100 == (y - 1901) / 100 + if y % 100 == 0 then 1 else 0
  {
  }

  lemma {:induction false} Every400(y: nat)
    ensures (y - 1600) / 400 == (y - 1601) / 400 + if y % 400 == 0 then 1 else 0
  {
  }

  lemma {:induction false} Centuries(y: nat)
    ensures y % 400 == 0 ==> y % 100 == 0
    ensures y % 100 == 0 ==> y % 4 == 0
  {
    if y % 400 == 0 {
      var k := y / 400;
      assert y == 100 * (4 * k);
    }
    if y % 100 == 0 {
      var k := y / 100;
      assert y == 4 * (25 * k);
    }
  }

  lemma {:induction false} YearsApart(y1: nat, y2: nat)
    requires 1970 <= y1 < y2
    ensures YearStart(y1) + YearDays(y1) <= YearStart(y2)
    decreases y2
  {
    if y1 < y2 - 1 {
      YearsApart(y1, y2 - 1);
    }
  }

  function MonthDays(mon: int, leap: int): int {
    if mon == 1 then 28 + leap
    else if mon == 3 || mon == 5 || mon == 8 || mon == 10 then 30
    else 31
  }

  /** Days of the year before the month. */
  function MonthStart(mon: nat, leap: int): int {
    if mon == 0 then 0 else MonthStart(mon - 1, leap) + MonthDays(mon - 1, leap)
  }

  lemma {:induction false} YearHasTwelveMonths(leap: int)
    ensures MonthStart(12, leap) == 365 + leap
  {
    assert MonthStart(1, leap) == 31;
    assert MonthStart(2, leap) == 59 + leap;
    assert MonthStart(4, leap) == MonthStart(2, leap) + 61;
    assert MonthStart(6, leap) == MonthStart(4, leap) + 61;
    assert MonthStart(8, leap) == MonthStart(6, leap) + 62;
    assert MonthStart(10, leap) == MonthStart(8, leap) + 61;
  }

  lemma {:induction false} MonthsApart(m1: nat, m2: nat, leap: int)
    requires m1 < m2 && 0 <= leap
    ensures MonthStart(m1, leap) + MonthDays(m1, leap) <= MonthStart(m2, leap)
    decreases m2
  {
    if m1 < m2 - 1 {
      MonthsApart(m1, m2 - 1, leap);
    }
  }

  // ---- What the fields of a time must be ----

  /** The expression of the standard for the seconds since the epoch. */
  function PosixSeconds(f: Time): int {
    f.sec + f.min * 60 + f.hour * 3600 + f.yday * 86400 + (f.year - 70) * 31536000
    + ((f.year - 69) / 4) * 86400 - ((f.year - 1) / 100) * 86400 + ((f.year + 299) / 400) * 86400
  }

  predicate InRange(f: Time) {
    && 0 <= f.sec < 60 && 0 <= f.min < 60 && 0 <= f.hour < 24
    && f.year >= 70 && 0 <= f.yday < YearDays(f.year + 1900)
    && 0 <= f.mon < 12 && 1 <= f.mday <= MonthDays(f.mon, IsLeapYear(f.year + 1900))
  }

  /** Month and day of the month agree with the day of the year. */
  predicate Agrees(f: Time) {
    f.year >= 70 && f.mon >= 0 && f.yday == MonthStart(f.mon, IsLeapYear(f.year + 1900)) + f.mday - 1
  }

  function DayNumber(f: Time): int
    requires f.year >= 70
  {
    YearStart(f.year + 1900) + f.yday
  }

  lemma {:induction false} PosixIs(f: Time)
    requires f.year >= 70
    ensures PosixSeconds(f) == f.sec + f.min * 60 + f.hour * 3600 + DayNumber(f) * 86400
  {
    YearStartIs(f.year + 1900);
  }

  /** struct tm. */
  class Tm {
    var sec: int
    var min: int
    var hour: int
    var mday: int
    var mon: int
    var year: int
    var wday: int
    var yday: int
    var isdst: int

    function Fields(): Time
      reads this
    {
      Time(sec, min, hour, mday, mon, year, wday, yday, isdst)
    }
  }

  /**
   nolocks_localtime.  The fields always satisfy the closed form, and they are in range exactly for times that are not
   negative after the adjustment.
   */
  method NolocksLocaltime(tmp: Tm, t0: int, tz: int, dst: int)
    modifies tmp
    ensures PosixSeconds(tmp.Fields()) == t0 - tz + 3600 * dst
    ensures InRange(tmp.Fields()) <==> t0 - tz + 3600 * dst >= 0
    ensures Agrees(tmp.Fields()) && tmp.isdst == dst
    ensures tmp.wday == Rem(DayNumber(tmp.Fields()) + 4, 7)
    ensures t0 - tz + 3600 * dst
         == tmp.sec + 60 * tmp.min + 3600 * tmp.hour + 86400 * tmp.yday + 31536000 * (tmp.year - 70)
            + 86400 * ((tmp.year - 69) / 4) - 86400 * ((tmp.year - 1) / 100) + 86400 * ((tmp.year + 299) / 400)
    ensures var year := tmp.year + 1900;
            var leap := if year % 400 == 0 || (year % 4 == 0 && year % 100 != 0) then 1 else 0;
            && tmp.yday == (367 * (tmp.mon + 1) - 362) / 12 - (if tmp.mon < 2 then 0 else 2 - leap) + tmp.mday - 1
            && (t0 - tz + 3600 * dst >= 0 ==>
                  && 0 <= tmp.sec <= 59 && 0 <= tmp.min <= 59 && 0 <= tmp.hour <= 23
                  && tmp.year >= 70 && 0 <= tmp.yday <= 364 + leap && 0 <= tmp.mon <= 11 && 1 <= tmp.mday
                  && tmp.mday <= (if tmp.mon == 1 then 28 + leap else if tmp.mon in [3, 5, 8, 10] then 30 else 31)
                  && tmp.wday == ((t0 - tz + 3600 * dst) / 86400 + 4) % 7)
  {
    hide InRange, Agrees, PosixSeconds, DayNumber, YearStart, Quot, IsLeapYear, Rem;
    var t := t0 - tz;
    t := t + 3600 * dst;
    var days := Quot(t, 86400);
    var seconds := Rem(t, 86400);
    ghost var day := days;
    tmp.isdst := dst;
    SetClock(tmp, seconds);
    tmp.wday := Rem(days + 4, 7);
    days := SetYear(tmp, days);
    tmp.yday := days;
    SetMonth(tmp, days);
    tmp.year := tmp.year - 1900;
    Judge(tmp.Fields(), t, day);
    SpeltOut(tmp.Fields(), t);
  }

  /** Days of the year before a month, in closed form. */
  lemma {:induction false} MonthStartIs(mon: nat, leap: int)
    requires mon < 12
    ensures MonthStart(mon, leap) == (367 * (mon + 1) - 362) / 12 - if mon < 2 then 0 else 2 - leap
  {
    if mon > 0 {
      MonthStartIs(mon - 1, leap);
    }
  }

  lemma {:induction false} SpeltOut(f: Time, t: int)
    requires PosixSeconds(f) == t && (InRange(f) <==> t >= 0) && Agrees(f) && 0 <= f.mon < 12
    requires f.wday == Rem(DayNumber(f) + 4, 7) && DayNumber(f) == Quot(t, 86400)
    ensures t == f.sec + 60 * f.min + 3600 * f.hour + 86400 * f.yday + 31536000 * (f.year - 70)
                 + 86400 * ((f.year - 69) / 4) - 86400 * ((f.year - 1) / 100) + 86400 * ((f.year + 299) / 400)
    ensures var year := f.year + 1900;
            var leap := if year % 400 == 0 || (year % 4 == 0 && year % 100 != 0) then 1 else 0;
            && f.yday == (367 * (f.mon + 1) - 362) / 12 - (if f.mon < 2 then 0 else 2 - leap) + f.mday - 1
            && (t >= 0 ==>
                  && 0 <= f.sec <= 59 && 0 <= f.min <= 59 && 0 <= f.hour <= 23
                  && f.year >= 70 && 0 <= f.yday <= 364 + leap && 0 <= f.mon <= 11 && 1 <= f.mday
                  && f.mday <= (if f.mon == 1 then 28 + leap else if f.mon in [3, 5, 8, 10] then 30 else 31)
                  && f.wday == (t / 86400 + 4) % 7)
  {
    MonthStartIs(f.mon, IsLeapYear(f.year + 1900));
    hide MonthStart, DayNumber;
  }

  /** Hour, minute and second of the day. */
  method SetClock(tmp: Tm, seconds: int)
    modifies tmp`hour, tmp`min, tmp`sec
    ensures tmp.hour == Quot(seconds, 3600)
    ensures tmp.min == Quot(Rem(seconds, 3600), 60) && tmp.sec == Rem(Rem(seconds, 3600), 60)
  {
    tmp.hour := Quot(seconds, 3600);
    tmp.min := Quot(Rem(seconds, 3600), 60);
    tmp.sec := Rem(Rem(seconds, 3600), 60);
  }

  /** The loop over the years. */
  method SetYear(tmp: Tm, days0: int) returns (days: int)
    modifies tmp`year
    ensures tmp.year >= 1970 && YearStart(tmp.year) + days == days0 && days < YearDays(tmp.year)
    ensures days0 >= 0 ==> days >= 0
    ensures days0 < 0 ==> tmp.year == 1970
  {
    days := days0;
    tmp.year := 1970;
    while true
      invariant tmp.year >= 1970 && YearStart(tmp.year) + days == days0
      invariant if days0 < 0 then tmp.year == 1970 else days >= 0
      decreases days
    {
      var daysThisYear := 365 + IsLeapYear(tmp.year);
      if daysThisYear > days { break; }
      days := days - daysThisYear;
      tmp.year := tmp.year + 1;
    }
  }

  /** The loop over the months: it stops before the index leaves the table. */
  method SetMonth(tmp: Tm, days0: int)
    requires tmp.year >= 1970 && days0 < YearDays(tmp.year)
    modifies tmp`mon, tmp`mday
    ensures 0 <= tmp.mon < 12 && days0 == MonthStart(tmp.mon, IsLeapYear(tmp.year)) + tmp.mday - 1
    ensures tmp.mday <= MonthDays(tmp.mon, IsLeapYear(tmp.year))
    ensures if days0 < 0 then tmp.mon == 0 else tmp.mday >= 1
  {
    var days := days0;
    var leap := IsLeapYear(tmp.year);
    var mdays := new int[] [31, 28, 31, 30, 31, 30, 31, 31, 30, 31, 30, 31];
    mdays[1] := mdays[1] + leap;
    assert mdays[..] == Table(leap);
    YearHasTwelveMonths(leap);
    assert days0 < MonthStart(12, leap);
    hide MonthStart, MonthDays, YearDays, Table, IsLeapYear;
    tmp.mon := 0;
    ZeroMonths(leap);
    while days >= mdays[tmp.mon]
      invariant 0 <= tmp.mon < 12 && mdays[..] == Table(leap)
      invariant days0 == MonthStart(tmp.mon, leap) + days
      invariant if days0 < 0 then tmp.mon == 0 else days >= 0
      decreases days
    {
      MonthIn(tmp.mon, leap);
      days := days - mdays[tmp.mon];
      tmp.mon := tmp.mon + 1;
    }
    MonthIn(tmp.mon, leap);
    tmp.mday := days + 1;
  }

  function Table(leap: int): (r: seq<int>)
    ensures |r| == 12
  {
    [31, 28 + leap, 31, 30, 31, 30, 31, 31, 30, 31, 30, 31]
  }

  lemma {:induction false} ZeroMonths(leap: int)
    ensures MonthStart(0, leap) == 0
  {
  }

  lemma {:induction false} MonthIn(mon: nat, leap: int)
    requires mon < 12
    ensures Table(leap)[mon] == MonthDays(mon, leap)
    ensures MonthStart(mon + 1, leap) == MonthStart(mon, leap) + MonthDays(mon, leap)
  {
  }

  lemma {:induction false} Judge(f: Time, t: int, day: int)
    requires f.year >= 70 && day == Quot(t, 86400) && day == YearStart(f.year + 1900) + f.yday
    requires var s := Rem(t, 86400);
             f.hour == Quot(s, 3600) && f.min == Quot(Rem(s, 3600), 60) && f.sec == Rem(Rem(s, 3600), 60)
    requires f.yday < YearDays(f.year + 1900) && (day < 0 ==> f.year == 70) && (day >= 0 ==> f.yday >= 0)
    requires 0 <= f.mon < 12 && f.yday == MonthStart(f.mon, IsLeapYear(f.year + 1900)) + f.mday - 1
    requires f.mday <= MonthDays(f.mon, IsLeapYear(f.year + 1900)) && (f.yday >= 0 ==> f.mday >= 1)
    ensures PosixSeconds(f) == t && Agrees(f) && day == DayNumber(f) == Quot(t, 86400)
    ensures InRange(f) <==> t >= 0
  {
    PosixIs(f);
    hide PosixSeconds, YearStart, MonthStart, IsLeapYear;
    ClockIs(t);
  }

  lemma {:induction false} ClockIs(t: int)
    ensures var s := Rem(t, 86400);
            var h, m, c := Quot(s, 3600), Quot(Rem(s, 3600), 60), Rem(Rem(s, 3600), 60);
            && t == c + m * 60 + h * 3600 + Quot(t, 86400) * 86400
            && (if t >= 0 then 0 <= c < 60 && 0 <= m < 60 && 0 <= h < 24 && Quot(t, 86400) >= 0
                else Quot(t, 86400) <= 0 && (Quot(t, 86400) < 0 || c < 0 || m < 0 || h < 0))
  {
  }

  // ---- The fields determine the time, and keep its order ----

  predicate Earlier(f: Time, g: Time) {
    f.year < g.year || (f.year == g.year &&
      (f.mon < g.mon || (f.mon == g.mon &&
        (f.mday < g.mday || (f.mday == g.mday &&
          (f.hour < g.hour || (f.hour == g.hour &&
            (f.min < g.min || (f.min == g.min && f.sec < g.sec)))))))))
  }

  /** Year, month, day, hour, minute and second order times as the seconds do. */
  lemma {:induction false} OrderPreserved(f: Time, g: Time)
    requires InRange(f) && Agrees(f) && InRange(g) && Agrees(g)
    ensures PosixSeconds(f) < PosixSeconds(g) <==> Earlier(f, g)
  {
    if Earlier(f, g) {
      EarlierIsLess(f, g);
    } else if Earlier(g, f) {
      EarlierIsLess(g, f);
    } else {
      assert f.year == g.year && f.mon == g.mon && f.mday == g.mday && f.yday == g.yday;
    }
  }

  lemma {:induction false} EarlierIsLess(f: Time, g: Time)
    requires InRange(f) && Agrees(f) && InRange(g) && Agrees(g) && Earlier(f, g)
    ensures PosixSeconds(f) < PosixSeconds(g)
  {
    PosixIs(f);
    PosixIs(g);
    DaysApart(f, g);
    hide PosixSeconds, DayNumber, Agrees;
    if DayNumber(f) < DayNumber(g) {
      assert PosixSeconds(f) < (DayNumber(f) + 1) * 86400 <= DayNumber(g) * 86400 <= PosixSeconds(g);
    }
  }

  lemma {:induction false} DaysApart(f: Time, g: Time)
    requires InRange(f) && Agrees(f) && InRange(g) && Agrees(g)
    ensures f.year < g.year || (f.year == g.year && f.mon < g.mon) ==> DayNumber(f) < DayNumber(g)
    ensures f.year == g.year && f.mon == g.mon ==> DayNumber(f) - DayNumber(g) == f.mday - g.mday
  {
    hide MonthStart, YearStart, IsLeapYear;
    if f.year < g.year {
      YearsApart(f.year + 1900, g.year + 1900);
    } else if f.year == g.year && f.mon < g.mon {
      MonthsApart(f.mon, g.mon, IsLeapYear(f.year + 1900));
    }
  }

  /** The closed form has one solution in range: a time determines its fields. */
  lemma {:induction false} FieldsUnique(f: Time, g: Time)
    requires InRange(f) && Agrees(f) && InRange(g) && Agrees(g) && PosixSeconds(f) == PosixSeconds(g)
    ensures f == g.(wday := f.wday, isdst := f.isdst)
  {
    OrderPreserved(f, g);
    OrderPreserved(g, f);
  }
}
