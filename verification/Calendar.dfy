// gmtimeX of apps/http_zot/src/gmtime.c against the Gregorian calendar.
module Calendar {
  import opened Bits

  // struct tm: year counts from 1900, mon from 0, mday from 1, wday from Sunday.
  datatype Tm = Tm(sec: nat, min: nat, hour: nat, mday: nat, mon: nat, year: nat, wday: nat, yday: nat)

  // ---- the Gregorian calendar ----

  predicate Leap(y: nat) { y % 4 == 0 && (y % 100 != 0 || y % 400 == 0) }

  function YearDays(y: nat): nat { if Leap(y) then 366 else 365 }

  // Days from 1970-01-01 to the first day of year y.
  function DaysBefore(y: nat): nat { if y <= 1970 then 0 else DaysBefore(y - 1) + YearDays(y - 1) }

  function MonthDays(leap: bool, m: nat): nat
    requires m < 12
  {
    if m == 1 then (if leap then 29 else 28)
    else if m == 3 || m == 5 || m == 8 || m == 10 then 30
    else 31
  }

  // Days from the first of January to the first of month m.
  function MonthStart(leap: bool, m: nat): nat
    requires m <= 12
  {
    if m == 0 then 0 else MonthStart(leap, m - 1) + MonthDays(leap, m - 1)
  }

  // Where the months of a common year start, in closed form; a leap year has a day more before March.
  lemma MonthStarts(m: nat)
    requires m <= 12
    ensures MonthStart(false, m) == if m < 2 then 31 * m else (153 * (m - 2) + 2) / 5 + 59
    ensures MonthStart(true, m) == MonthStart(false, m) + if m < 2 then 0 else 1
  {
    LeapStart(m);
    assert MonthStart(false, 3) == 90;
    assert MonthStart(false, 6) == 181;
    assert MonthStart(false, 9) == 273;
  }

  // Leap years up to y.
  function LeapsTo(y: nat): int { y / 4 - y / 100 + y / 400 }

  // The days before a year, in closed form.
  lemma {:induction false} DaysFormula(y: nat)
    requires y >= 1970
    ensures DaysBefore(y) == 365 * (y - 1970) + LeapsTo(y - 1) - LeapsTo(1969)
  {
    if y > 1970 {
      DaysFormula(y - 1);
      LeapStep(y - 1);
    }
  }

  lemma LeapStep(y: nat)
    requires y > 0
    ensures LeapsTo(y) == LeapsTo(y - 1) + if Leap(y) then 1 else 0
  {
    Quotient(y, 4);
    Quotient(y, 100);
    Quotient(y, 400);
    Multiples(y);
  }

  lemma Quotient(y: nat, d: nat)
    requires y > 0 && d > 0
    ensures y / d == (y - 1) / d + if y % d == 0 then 1 else 0
  {
    var q, r := y / d, y % d;
    assert y == d * q + r;
    assert d * (q - 1) == d * q - d;
    if r == 0 { DivModUnique(y - 1, d, q - 1, d - 1); } else { DivModUnique(y - 1, d, q, r - 1); }
  }

  lemma Multiples(y: nat)
    ensures y % 400 == 0 ==> y % 100 == 0
    ensures y % 100 == 0 ==> y % 4 == 0
  {
    if y % 400 == 0 { DivModUnique(y, 100, 4 * (y / 400), 0); }
    if y % 100 == 0 { DivModUnique(y, 4, 25 * (y / 100), 0); }
  }

  predicate TimeOfDay(t: Tm) { t.sec < 60 && t.min < 60 && t.hour < 24 }

  function SecondsAt(day: nat, t: Tm): nat { ((day * 24 + t.hour) * 60 + t.min) * 60 + t.sec }

  // A date that exists, at a time that exists.
  predicate Exists(t: Tm)
  {
    TimeOfDay(t) && t.mon < 12 && 1 <= t.mday <= MonthDays(Leap(t.year + 1900), t.mon)
  }

  function DayNumber(t: Tm): nat
    requires t.mon < 12 && t.mday >= 1
  {
    DaysBefore(t.year + 1900) + MonthStart(Leap(t.year + 1900), t.mon) + t.mday - 1
  }

  // t is the Gregorian date and time n seconds after 1970 began.
  predicate IsTime(t: Tm, n: nat) { Exists(t) && SecondsAt(DayNumber(t), t) == n }

  // ---- the calendar of the code: every fourth year is a leap year ----

  function FourYears(y: nat): nat { if y <= 1970 then 0 else FourYears(y - 1) + if (y - 1) % 4 == 0 then 366 else 365 }

  predicate FourExists(t: Tm)
  {
    TimeOfDay(t) && t.mon < 12 && 1 <= t.mday <= MonthDays(t.year % 4 == 0, t.mon) && t.year >= 70
  }

  function FourDay(t: Tm): nat
    requires t.mon < 12 && t.mday >= 1
  {
    FourYears(t.year + 1900) + MonthStart(t.year % 4 == 0, t.mon) + t.mday - 1
  }

  lemma {:induction false} BlockDays(i: nat)
    ensures FourYears(1970 + 4 * i) == 1461 * i
  {
    if i > 0 {
      BlockDays(i - 1);
      var y := 1970 + 4 * (i - 1);
      assert FourYears(y + 2) == FourYears(y) + 730;
      assert FourYears(y + 4) == FourYears(y + 2) + 731;
    }
  }

  // 1 March 2100 in days.
  const LAST_DAY: nat := 1461 * 32 + 365 + 365 + 59

  lemma LastYear()
    ensures FourYears(2100) + 59 == LAST_DAY && FourYears(2101) == LAST_DAY + 307
  {
    BlockDays(32);
    assert FourYears(2099) == FourYears(2098) + 365;
    assert FourYears(2100) == FourYears(2099) + 365;
  }

  lemma FourYearRule(y: nat)
    requires 1970 <= y < 2100
    ensures Leap(y) <==> y % 4 == 0
  {
  }

  lemma LeapIsFourth(y: nat)
    ensures Leap(y) ==> y % 4 == 0
  {
  }

  // The two calendars agree up to 2100, which has no 29 February.
  lemma {:induction false} YearsAgree(y: nat)
    requires y >= 1970
    ensures y <= 2100 ==> DaysBefore(y) == FourYears(y)
    ensures y > 2100 ==> DaysBefore(y) < FourYears(y)
  {
    hide Leap;
    if y > 1970 {
      YearsAgree(y - 1);
      LeapIsFourth(y - 1);
      CenturyIsCommon();
      if y <= 2100 { FourYearRule(y - 1); }
    }
  }

  lemma {:induction false} YearsGrow(y: nat, z: nat)
    requires y <= z
    ensures FourYears(y) <= FourYears(z)
    decreases z
  {
    if y < z { YearsGrow(y, z - 1); }
  }

  // Days[] as the code has it
  const Days: seq<nat> := [31, 28, 31, 30, 31, 30, 31, 31, 30, 31, 30, 31]

  lemma DaysTable(m: nat)
    requires m < 12
    ensures Days[m] == MonthDays(false, m)
  {
  }

  lemma {:induction false} LeapStart(m: nat)
    requires m <= 12
    ensures MonthStart(true, m) == MonthStart(false, m) + if m >= 2 then 1 else 0
  {
    if m > 0 { LeapStart(m - 1); }
  }

  lemma YearEnd()
    ensures MonthStart(false, 2) == 59 && MonthStart(false, 12) == 365
  {
    assert MonthStart(false, 4) == 120;
    assert MonthStart(false, 8) == 243;
  }

  lemma {:induction false} StartGrows(m: nat, n: nat)
    requires m <= n <= 12
    ensures MonthStart(false, m) <= MonthStart(false, n)
    decreases n
  {
    if m < n { StartGrows(m, n - 1); }
  }

  // ---- gmtimeX ----

  // gmtime.c:88-102: month and day of month from the day of the year.
  method MonthAndDay(leap: bool, yday: nat) returns (mon: nat, mday: nat)
    requires yday < if leap then 366 else 365
    ensures mon < 12 && 1 <= mday <= MonthDays(leap, mon) && MonthStart(leap, mon) + mday - 1 == yday
  {
    hide MonthStart;
    YearEnd();
    LeapStart(1);
    StartOfFebruary();
    var time: nat := yday + 1;
    if leap {
      if time > 60 {
        time := time - 1;
      } else if time == 60 {
        return 1, 29;
      }
    }
    ghost var day := time;
    mon := 0;
    while Days[mon] < time
      invariant mon < 12 && 1 <= time && MonthStart(false, mon) + time == day
      decreases 12 - mon
    {
      DaysTable(mon);
      NextStart(mon);
      if mon == 11 { YearEnd(); }
      time := time - Days[mon];
      mon := mon + 1;
    }
    DaysTable(mon);
    NextStart(mon);
    LeapStart(mon);
    if mon >= 2 { StartGrows(2, mon); }
    if mon <= 1 { StartGrows(mon + 1, 2); }
    mday := time;
  }

  lemma NextStart(m: nat)
    requires m < 12
    ensures MonthStart(false, m + 1) == MonthStart(false, m) + MonthDays(false, m)
  {
  }

  lemma StartOfFebruary()
    ensures MonthStart(true, 1) == 31 && MonthStart(false, 0) == 0
  {
  }

  // Times before the epoch count as the epoch.
  function Clamped(t: int): nat { if t < 0 then 0 else t }

  predicate BeforeMarch2100(n: nat) { n < LAST_DAY * 86400 }

  // gmtimeX: the time in the calendar of the code, which is the Gregorian one exactly for
  // arguments before 1 March 2100.
  method GmTime(t: int) returns (tm: Tm)
    ensures FourExists(tm) && SecondsAt(FourDay(tm), tm) == Clamped(t)
    ensures tm.wday == (FourDay(tm) + 4) % 7 && FourYears(tm.year + 1900) + tm.yday == FourDay(tm)
    ensures IsTime(tm, Clamped(t)) <==> BeforeMarch2100(Clamped(t))
  {
    hide FourYears, MonthStart, MonthDays, IsTime;
    var time: nat := if t < 0 then 0 else t;
    var sec := time % 60;
    time := time / 60;
    var min := time % 60;
    time := time / 60;
    ghost var hours := time;
    var i := time / (1461 * 24);
    var year := 4 * i + 70;
    var cumdays := 1461 * i;
    time := time % (1461 * 24);
    BlockDays(i);
    while true
      invariant 70 <= year && cumdays == FourYears(year + 1900) && cumdays * 24 + time == hours
      decreases time
    {
      YearLength(year);
      var hpery := if year % 4 == 0 then 366 * 24 else 365 * 24;
      if time < hpery { break; }
      cumdays := cumdays + hpery / 24;
      year := year + 1;
      time := time - hpery;
    }
    var hour := time % 24;
    time := time / 24;
    var yday := time;
    cumdays := cumdays + (time + 4);
    var wday := cumdays % 7;
    var mon, mday := MonthAndDay(year % 4 == 0, yday);
    tm := Tm(sec, min, hour, mday, mon, year, wday, yday);
    RightBefore2100March(tm);
  }

  lemma YearLength(year: nat)
    requires 70 <= year
    ensures FourYears(year + 1900 + 1) == FourYears(year + 1900) + if year % 4 == 0 then 366 else 365
  {
  }

  // ---- when the code is right ----

  // Before the end of February a leap year is like any other.
  lemma EarlyMonths(mon: nat, mday: nat)
    requires mon < 12 && 1 <= mday <= MonthDays(true, mon)
    ensures MonthStart(true, mon) + mday - 1 < 59 ==>
              mday <= MonthDays(false, mon) && MonthStart(true, mon) == MonthStart(false, mon)
    ensures MonthStart(true, mon) + mday - 1 >= 59 ==>
              mday > MonthDays(false, mon) || MonthStart(true, mon) > MonthStart(false, mon)
  {
    LeapStart(mon);
    YearEnd();
    if mon >= 2 { StartGrows(2, mon); }
    if mon == 1 { StartOfFebruary(); }
    if mon == 0 { StartOfFebruary(); }
  }

  lemma {:induction false} WithinYear(leap: bool, mon: nat, mday: nat)
    requires mon < 12 && 1 <= mday <= MonthDays(leap, mon)
    ensures MonthStart(leap, mon) + mday <= if leap then 366 else 365
  {
    YearEnd();
    LeapStart(mon);
    LeapStart(mon + 1);
    NextStart(mon);
    StartGrows(mon + 1, 12);
  }

  // The code's time is the Gregorian one exactly before 1 March 2100.
  lemma RightBefore2100March(t: Tm)
    requires FourExists(t)
    ensures IsTime(t, SecondsAt(FourDay(t), t)) <==> FourDay(t) < LAST_DAY
  {
    hide FourYears, DaysBefore, MonthStart, MonthDays, Leap;
    var y, four := t.year + 1900, t.year % 4 == 0;
    YearsAgree(y);
    LastYear();
    WithinYear(four, t.mon, t.mday);
    if y < 2100 {
      FourYearRule(y);
      YearsGrow(y + 1, 2100);
      YearLength(t.year);
    } else if y == 2100 {
      CenturyIsCommon();
      EarlyMonths(t.mon, t.mday);
    } else {
      YearsGrow(2101, y);
      LeapIsFourth(y);
      LeapStart(t.mon);
    }
  }

  lemma CenturyIsCommon()
    ensures !Leap(2100)
  {
  }

  // Two times of the code's calendar with the same number of seconds are the same time, so
  // gmtimeX is the only inverse of counting.
  lemma SameSeconds(a: Tm, b: Tm)
    requires FourExists(a) && FourExists(b) && SecondsAt(FourDay(a), a) == SecondsAt(FourDay(b), b)
    ensures a.(wday := 0, yday := 0) == b.(wday := 0, yday := 0)
  {
    hide FourYears, MonthStart, MonthDays;
    assert FourDay(a) == FourDay(b) && a.hour == b.hour && a.min == b.min && a.sec == b.sec;
    SameYear(a, b);
    SameYear(b, a);
    SameMonth(a.year % 4 == 0, a.mon, a.mday, b.mon, b.mday);
    SameMonth(a.year % 4 == 0, b.mon, b.mday, a.mon, a.mday);
  }

  lemma SameYear(a: Tm, b: Tm)
    requires FourExists(a) && FourExists(b) && FourDay(a) == FourDay(b)
    ensures a.year >= b.year
  {
    hide FourYears, MonthStart, MonthDays;
    if a.year < b.year {
      WithinYear(a.year % 4 == 0, a.mon, a.mday);
      YearLength(a.year);
      YearsGrow(a.year + 1901, b.year + 1900);
    }
  }

  lemma SameMonth(leap: bool, m: nat, d: nat, n: nat, e: nat)
    requires m < 12 && n < 12 && 1 <= d <= MonthDays(leap, m) && 1 <= e <= MonthDays(leap, n)
    requires MonthStart(leap, m) + d == MonthStart(leap, n) + e
    ensures m >= n
  {
    hide MonthDays;
    if m < n {
      LeapStart(m + 1);
      LeapStart(n);
      StartGrows(m + 1, n);
    }
  }
}
