/**
 64-bit calendar arithmetic: seconds since 1970 to broken-down dates and back,
 and the choice of an equivalent year that a 32-bit clock can handle.
 */
module Time64 {
  import opened Words

  // ---- C integer division ----

  function TruncDiv(a: int, b: int): int
    requires b > 0
  {
    if a >= 0 then a / b else -((-a) / b)
  }

  function TruncMod(a: int, b: int): int
    requires b > 0
  {
    a - b * TruncDiv(a, b)
  }

  lemma TruncDivSpec(a: int, b: int)
    requires b > 0
    ensures a >= 0 ==> TruncMod(a, b) == a % b && 0 <= TruncMod(a, b) < b
    ensures a < 0 ==> TruncMod(a, b) == -((-a) % b) && -b < TruncMod(a, b) <= 0
    ensures a == b * TruncDiv(a, b) + TruncMod(a, b)
  {
    if a >= 0 {
      assert a == b * (a / b) + a % b;
    } else {
      assert -a == b * ((-a) / b) + (-a) % b;
      assert b * -((-a) / b) == -(b * ((-a) / b));
    }
  }

  lemma TruncModZero(a: int, b: int)
    requires b > 0
    ensures TruncMod(a, b) == 0 <==> a % b == 0
  {
    TruncDivSpec(a, b);
    if a < 0 {
      NegatedMod(a, b);
    }
  }

  lemma NegatedMod(a: int, b: int)
    requires b > 0
    ensures (-a) % b == 0 <==> a % b == 0
  {
    var q, p := a / b, (-a) / b;
    assert a == b * q + a % b;
    assert -a == b * p + (-a) % b;
    if a % b == 0 { DivIs(-a, b, -q, 0); }
    if (-a) % b == 0 { DivIs(a, b, -p, 0); }
  }

  // ---- the proleptic Gregorian calendar ----

  predicate Leap(y: int) {
    y % 400 == 0 || (y % 4 == 0 && y % 100 != 0)
  }

  /** The IS_LEAP macro on years since 1900. */
  predicate IsLeap(n: int) {
    TruncMod(n + 1900, 400) == 0 || (TruncMod(n + 1900, 4) == 0 && TruncMod(n + 1900, 100) != 0)
  }

  lemma IsLeapSpec(n: int)
    ensures IsLeap(n) == Leap(n + 1900)
  {
    TruncModZero(n + 1900, 400);
    TruncModZero(n + 1900, 4);
    TruncModZero(n + 1900, 100);
  }

  function YearLen(leap: bool): int {
    if leap then 366 else 365
  }

  /** Days from 1 January 1970 to 1 January of year y. */
  function Days(y: int): int {
    365 * (y - 1970) + (y - 1) / 4 - (y - 1) / 100 + (y - 1) / 400 - 477
  }

  /** The count of days adds up the lengths of the years. */
  lemma DaysStep(y: int)
    ensures Days(1970) == 0
    ensures Days(y + 1) == Days(y) + YearLen(Leap(y))
  {
    QuotientStep(y, 4);
    QuotientStep(y, 100);
    QuotientStep(y, 400);
  }

  lemma QuotientStep(y: int, b: int)
    requires b > 1
    ensures y / b == (y - 1) / b + if y % b == 0 then 1 else 0
  {
    var q := (y - 1) / b;
    var r := (y - 1) % b;
    assert y == b * q + r + 1;
    if r + 1 < b { DivIs(y, b, q, r + 1); } else { assert y == b * (q + 1); DivIs(y, b, q + 1, 0); }
  }

  lemma DivIs(a: int, b: int, q: int, r: int)
    requires 0 <= r < b && a == b * q + r
    ensures a / b == q && a % b == r
  {
    var p, s := a / b, a % b;
    assert a == b * p + s;
    assert (q - p) * b == s - r;
    NoMultipleInside(q - p, b, s - r);
  }

  lemma Cycle(y: int, c: int)
    ensures Days(y + 400 * c) == Days(y) + 146097 * c
    ensures Leap(y + 400 * c) == Leap(y)
  {
    var x := y - 1;
    ShiftedDiv(x, 4, 100 * c);
    ShiftedDiv(x, 100, 4 * c);
    ShiftedDiv(x, 400, c);
    ShiftedDiv(y, 4, 100 * c);
    ShiftedDiv(y, 100, 4 * c);
    ShiftedDiv(y, 400, c);
  }

  lemma ShiftedDiv(a: int, b: int, k: int)
    requires b > 0
    ensures (a + b * k) / b == a / b + k && (a + b * k) % b == a % b
  {
    assert a + b * k == b * (a / b + k) + a % b;
    DivIs(a + b * k, b, a / b + k, a % b);
  }

  lemma {:induction false} DaysMonotone(y: int, z: int)
    requires y < z
    ensures Days(y) + 365 * (z - y) <= Days(z) <= Days(y) + 366 * (z - y)
    decreases z - y
  {
    DaysStep(z - 1);
    if y < z - 1 { DaysMonotone(y, z - 1); }
  }

  function MonthLen(leap: bool, mon: int): int
    requires 0 <= mon < 12
  {
    if leap then [31, 29, 31, 30, 31, 30, 31, 31, 30, 31, 30, 31][mon]
    else [31, 28, 31, 30, 31, 30, 31, 31, 30, 31, 30, 31][mon]
  }

  function MonthStart(leap: bool, mon: int): int
    requires 0 <= mon < 12
  {
    if leap then [0, 31, 60, 91, 121, 152, 182, 213, 244, 274, 305, 335][mon]
    else [0, 31, 59, 90, 120, 151, 181, 212, 243, 273, 304, 334][mon]
  }

  /** The two month tables agree: each start is the sum of the lengths before it. */
  lemma MonthTables(leap: bool, mon: int)
    requires 0 <= mon < 12
    ensures MonthStart(leap, 0) == 0 && 28 <= MonthLen(leap, mon) <= 31
    ensures MonthStart(leap, mon) + MonthLen(leap, mon) == if mon < 11 then MonthStart(leap, mon + 1) else YearLen(leap)
  {
  }

  /** Where the months start, by the rule that spreads 367 days over twelve months and takes back what February lacks. */
  lemma MonthStartRule(leap: bool, mon: int)
    requires 0 <= mon < 12
    ensures MonthStart(leap, mon) == (367 * (mon + 1) - 362) / 12 - if mon < 2 then 0 else if leap then 1 else 2
  {
  }

  datatype TM = TM(sec: int, min: int, hour: int, mday: int, mon: int, year: int, wday: int, yday: int)

  /** The day a date falls on, counted from 1970, and its second. */
  function DayOf(t: TM): int
    requires 0 <= t.mon < 12
  {
    Days(t.year + 1900) + MonthStart(Leap(t.year + 1900), t.mon) + t.mday - 1
  }

  function SecondsOf(t: TM): int
    requires 0 <= t.mon < 12
  {
    86400 * DayOf(t) + 3600 * t.hour + 60 * t.min + t.sec
  }

  /** A date of the calendar, with the weekday and day of the year that belong to it. */
  predicate Civil(t: TM) {
    && 0 <= t.sec < 60 && 0 <= t.min < 60 && 0 <= t.hour < 24
    && 0 <= t.mon < 12 && 1 <= t.mday <= MonthLen(Leap(t.year + 1900), t.mon)
    && t.yday == MonthStart(Leap(t.year + 1900), t.mon) + t.mday - 1
    && t.wday == (DayOf(t) + 4) % 7
  }

  predicate FitsInt(n: int) {
    -0x8000_0000 <= n < 0x8000_0000
  }

  predicate FitsInt64(n: int) {
    -0x8000_0000_0000_0000 <= n < 0x8000_0000_0000_0000
  }

  /** Known days: 1 January 1970 was a Thursday, 29 February 2000 a Tuesday, and the last second of 1899 fell on a Sunday. */
  lemma KnownDays()
    ensures Civil(TM(0, 0, 0, 1, 0, 70, 4, 0)) && SecondsOf(TM(0, 0, 0, 1, 0, 70, 4, 0)) == 0
    ensures Civil(TM(0, 0, 0, 29, 1, 100, 2, 59)) && SecondsOf(TM(0, 0, 0, 29, 1, 100, 2, 59)) == 951782400
    ensures Civil(TM(59, 59, 23, 31, 11, -1, 0, 364)) && SecondsOf(TM(59, 59, 23, 31, 11, -1, 0, 364)) == -2208988801
  {
    hide *;
    KnownYears();
    KnownDay(TM(0, 0, 0, 1, 0, 70, 4, 0), 0, 0, 31);
    KnownDay(TM(0, 0, 0, 29, 1, 100, 2, 59), 10957, 31, 29);
    KnownDay(TM(59, 59, 23, 31, 11, -1, 0, 364), -25932, 334, 31);
  }

  lemma KnownYears()
    ensures Days(1970) == 0 && Days(2000) == 10957 && Days(1899) == -25932
    ensures MonthStart(Leap(1970), 0) == 0 && MonthStart(Leap(2000), 1) == 31 && MonthStart(Leap(1899), 11) == 334
    ensures MonthLen(Leap(1970), 0) == 31 && MonthLen(Leap(2000), 1) == 29 && MonthLen(Leap(1899), 11) == 31
  {
  }

  lemma KnownDay(t: TM, first: int, start: int, len: int)
    requires 0 <= t.mon < 12 && Days(t.year + 1900) == first
    requires MonthStart(Leap(t.year + 1900), t.mon) == start && MonthLen(Leap(t.year + 1900), t.mon) == len
    requires 0 <= t.sec < 60 && 0 <= t.min < 60 && 0 <= t.hour < 24 && 1 <= t.mday <= len
    requires t.yday == start + t.mday - 1 && t.wday == (first + t.yday + 4) % 7
    ensures Civil(t) && SecondsOf(t) == 86400 * (first + t.yday) + 3600 * t.hour + 60 * t.min + t.sec
  {
    hide Days, Leap, MonthStart, MonthLen;
  }

  lemma {:induction false} MonthStartsGrow(leap: bool, m: int, n: int)
    requires 0 <= m < n < 12
    ensures MonthStart(leap, m) + MonthLen(leap, m) <= MonthStart(leap, n)
    decreases n - m
  {
    MonthTables(leap, n - 1);
    if m < n - 1 { MonthStartsGrow(leap, m, n - 1); }
  }

  lemma YdayRange(t: TM)
    requires Civil(t)
    ensures 0 <= t.yday < YearLen(Leap(t.year + 1900)) && DayOf(t) == Days(t.year + 1900) + t.yday
  {
    MonthTables(Leap(t.year + 1900), t.mon);
    if t.mon > 0 { MonthStartsGrow(Leap(t.year + 1900), 0, t.mon); }
    if t.mon < 11 {
      MonthStartsGrow(Leap(t.year + 1900), t.mon, 11);
      MonthTables(Leap(t.year + 1900), 11);
    }
  }

  lemma YearUnique(y: int, d: int, z: int, e: int)
    requires 0 <= d < YearLen(Leap(y)) && 0 <= e < YearLen(Leap(z)) && Days(y) + d == Days(z) + e
    ensures y == z && d == e
  {
    DaysStep(y);
    DaysStep(z);
    if y + 1 < z { DaysMonotone(y + 1, z); }
    if z + 1 < y { DaysMonotone(z + 1, y); }
  }

  lemma MonthUnique(a: TM, b: TM)
    requires Civil(a) && Civil(b) && a.year == b.year && a.yday == b.yday
    ensures a.mon == b.mon && a.mday == b.mday
  {
    if a.mon < b.mon { MonthStartsGrow(Leap(a.year + 1900), a.mon, b.mon); }
    if b.mon < a.mon { MonthStartsGrow(Leap(a.year + 1900), b.mon, a.mon); }
  }

  lemma ClockUnique(a: TM, b: TM)
    requires Civil(a) && Civil(b) && SecondsOf(a) == SecondsOf(b)
    ensures DayOf(a) == DayOf(b) && a.hour == b.hour && a.min == b.min && a.sec == b.sec && a.wday == b.wday
  {
    var d, e := DayOf(a), DayOf(b);
    hide DayOf, MonthLen, MonthStart, Leap;
  }

  /** Different dates are different instants. */
  lemma CivilUnique(a: TM, b: TM)
    requires Civil(a) && Civil(b) && SecondsOf(a) == SecondsOf(b)
    ensures a == b
  {
    hide *;
    YdayRange(a);
    YdayRange(b);
    ClockUnique(a, b);
    YearUnique(a.year + 1900, a.yday, b.year + 1900, b.yday);
    MonthUnique(a, b);
  }

  // ---- timegm64 ----

  /** The days from 1970 to the start of a year, year by year in either direction. */
  method DaysByYear(orig: int) returns (days: int)
    ensures days == Days(orig + 1900)
  {
    DaysStep(1970);
    hide Days, Leap, IsLeap;
    days := 0;
    if orig > 70 {
      var year := 70;
      while year < orig
        invariant 70 <= year <= orig
        invariant days == Days(year + 1900)
      {
        IsLeapSpec(year);
        DaysStep(year + 1900);
        days := days + YearLen(IsLeap(year));
        year := year + 1;
      }
    } else if orig < 70 {
      var year := 69;
      IsLeapSpec(year);
      DaysStep(year + 1900);
      days := days - YearLen(IsLeap(year));
      year := year - 1;
      while year >= orig
        invariant orig - 1 <= year < 69
        invariant days == Days(year + 1 + 1900)
      {
        IsLeapSpec(year);
        DaysStep(year + 1900);
        days := days - YearLen(IsLeap(year));
        year := year - 1;
      }
    }
  }

  /** timegm64: the seconds from 1970 to the date, for every date whose month indexes the tables. */
  method Timegm64(date: TM) returns (seconds: int)
    requires FitsInt(date.year) && 0 <= date.mon < 12
    ensures seconds == SecondsOf(date)
  {
    hide Days, Leap, IsLeap;
    var days, orig := 0, date.year;
    if orig > 100 || orig < -300 {
      var cycles := TruncDiv(orig - 100, 400);
      assert FitsInt(cycles * 400);
      Cycle(orig - cycles * 400 + 1900, cycles);
      orig := orig - cycles * 400;
      days := days + cycles * 146097;
    }
    IsLeapSpec(orig);
    hide TruncDiv;
    var more := DaysByYear(orig);
    days := days + more;
    days := days + MonthStart(IsLeap(orig), date.mon);
    days := days + date.mday - 1;
    seconds := days * 60 * 60 * 24;
    seconds := seconds + date.hour * 60 * 60;
    seconds := seconds + date.min * 60;
    seconds := seconds + date.sec;
  }

  // ---- gmtime64_r ----

  /** Seconds split by truncating division, then wrapped to the day they fall in. */
  method SplitTime(in_time: int) returns (sec: int, min: int, hour: int, tday: int)
    ensures 0 <= sec < 60 && 0 <= min < 60 && 0 <= hour < 24
    ensures in_time == 86400 * tday + 3600 * hour + 60 * min + sec
  {
    var time := in_time;
    TruncDivSpec(time, 60);
    sec := TruncMod(time, 60);
    time := TruncDiv(time, 60);
    TruncDivSpec(time, 60);
    min := TruncMod(time, 60);
    time := TruncDiv(time, 60);
    TruncDivSpec(time, 24);
    hour := TruncMod(time, 24);
    time := TruncDiv(time, 24);
    tday := time;
    hide TruncDiv, TruncMod;
    if sec < 0 { min := min - 1; sec := sec + 60; }
    if min < 0 { hour := hour - 1; min := min + 60; }
    if hour < 0 { tday := tday - 1; hour := hour + 24; }
  }

  const MAX_DAYS := 107_000_000_000_000   // more days than 2^63 seconds

  /** Forward from the start of year `from`, by 400-year cycles and then year by year. */
  method YearForward(start: int, from: int) returns (year: int, leap: bool, m: int)
    requires 0 <= start < MAX_DAYS
    ensures leap == Leap(year + 1900) && 0 <= m < YearLen(leap)
    ensures Days(year + 1900) + m == Days(from + 1900) + start
  {
    hide Days, Leap, IsLeap;
    m, year := start, from;
    var cycles := TruncDiv(m, 146097);
    assert FitsInt(cycles);
    if cycles != 0 {
      Cycle(year + 1900, cycles);
      m := m - cycles * 146097;
      year := year + cycles * 400;
    }
    hide TruncDiv;
    IsLeapSpec(year);
    leap := IsLeap(year);
    while m >= YearLen(leap)
      invariant m >= 0 && Days(year + 1900) + m == Days(from + 1900) + start && leap == Leap(year + 1900)
      decreases m
    {
      DaysStep(year + 1900);
      m := m - YearLen(leap);
      year := year + 1;
      IsLeapSpec(year);
      leap := IsLeap(year);
    }
  }

  /** Backward from the end of the year before `from`: m is then counted from the end of the year found. */
  method YearBackward(start: int, from: int) returns (year: int, leap: bool, m: int)
    requires -MAX_DAYS < start < 0
    ensures leap == Leap(year + 1900) && -YearLen(leap) <= m < 0
    ensures Days(year + 1900) + YearLen(leap) + m == Days(from + 1900) + start
  {
    hide Days, Leap, IsLeap;
    m, year := start, from - 1;
    var cycles := TruncDiv(m, 146097) + 1;
    assert FitsInt(cycles) && m - cycles * 146097 < 0;
    Cycle(from + 1900, cycles);
    hide TruncDiv;
    if cycles != 0 {
      m := m - cycles * 146097;
      year := year + cycles * 400;
    }
    IsLeapSpec(year);
    leap := IsLeap(year);
    while m < -YearLen(leap)
      invariant m < 0 && Days(year + 1 + 1900) + m == Days(from + 1900) + start && leap == Leap(year + 1900)
      decreases -m
    {
      DaysStep(year + 1900);
      m := m + YearLen(leap);
      year := year - 1;
      IsLeapSpec(year);
      leap := IsLeap(year);
    }
    DaysStep(year + 1900);
  }

  method MonthForward(leap: bool, day: int) returns (mon: int, m: int)
    requires 0 <= day < YearLen(leap)
    ensures 0 <= mon < 12 && 0 <= m < MonthLen(leap, mon) && MonthStart(leap, mon) + m == day
  {
    m := day;
    MonthTables(leap, 0);
    hide MonthLen, MonthStart, YearLen;
    mon := 0;
    while m >= MonthLen(leap, mon)
      invariant 0 <= mon < 12 && m >= 0 && MonthStart(leap, mon) + m == day
      decreases 12 - mon
    {
      MonthTables(leap, mon);
      m := m - MonthLen(leap, mon);
      mon := mon + 1;
    }
  }

  method MonthBackward(leap: bool, day: int) returns (mon: int, m: int)
    requires -YearLen(leap) <= day < 0
    ensures 0 <= mon < 12 && 0 <= m < MonthLen(leap, mon) && MonthStart(leap, mon) + m == YearLen(leap) + day
  {
    m := day;
    MonthTables(leap, 11);
    hide MonthLen, MonthStart, YearLen;
    mon := 11;
    while m < -MonthLen(leap, mon)
      invariant 0 <= mon < 12 && m < 0 && MonthStart(leap, mon) + MonthLen(leap, mon) + m == YearLen(leap) + day
      decreases mon
    {
      MonthTables(leap, mon);
      if mon > 0 { MonthTables(leap, mon - 1); }
      m := m + MonthLen(leap, mon);
      mon := mon - 1;
    }
    m := m + MonthLen(leap, mon);
  }

  datatype Option<T> = None | Some(value: T)

  /** gmtime64_r: the date of the instant; EOVERFLOW exactly outside the years an int can hold. */
  method Gmtime64(time: int) returns (r: Option<TM>)
    requires FitsInt64(time)
    ensures r.Some? <==> 86400 * Days(1900 - 0x8000_0000) <= time < 86400 * Days(1900 + 0x8000_0000)
    ensures r.Some? ==> Civil(r.value) && SecondsOf(r.value) == time && FitsInt(r.value.year)
  {
    hide Days, Leap;
    var sec, min, hour, tday := SplitTime(time);
    TruncDivSpec(tday + 4, 7);
    hide TruncDiv, TruncMod;
    var wday := TruncMod(tday + 4, 7);
    if wday < 0 {
      wday := wday + 7;
    }
    Weekday(tday + 4, wday);
    var year, leap, mon, m := DateOfDay(tday);
    hide MonthStart, MonthLen;
    var t := TM(sec, min, hour, m + 1, mon, year, wday, MonthStart(leap, mon) + m);
    assert DayOf(t) == tday;
    assert Civil(t) && SecondsOf(t) == time;
    YearRange(t);
    hide Civil, DayOf, SecondsOf;
    if !FitsInt(year) {
      return None;
    }
    return Some(t);
  }

  /** The year, month and day of the month of a day counted from 1970; from 2008 on the count restarts there. */
  method DateOfDay(tday: int) returns (year: int, leap: bool, mon: int, m: int)
    requires -MAX_DAYS < tday < MAX_DAYS
    ensures leap == Leap(year + 1900) && 0 <= mon < 12 && 0 <= m < MonthLen(leap, mon)
    ensures Days(year + 1900) + MonthStart(leap, mon) + m == tday
  {
    assert Days(1970) == 0 && Days(2008) == 13879;
    hide *;
    m, year := tday, 70;
    if m >= 13879 {
      year := 108;
      m := m - 13879;
    }
    if m >= 0 {
      year, leap, m := YearForward(m, year);
      mon, m := MonthForward(leap, m);
    } else {
      year, leap, m := YearBackward(m, year);
      mon, m := MonthBackward(leap, m);
    }
  }

  lemma Weekday(a: int, w: int)
    requires 0 <= w < 7
    requires w == TruncMod(a, 7) || w == TruncMod(a, 7) + 7
    ensures w == a % 7
  {
    TruncDivSpec(a, 7);
    var q := TruncDiv(a, 7);
    if w == TruncMod(a, 7) { DivIs(a, 7, q, w); } else { DivIs(a, 7, q - 1, w); }
  }

  lemma DaysOrder(y: int, z: int)
    requires y <= z
    ensures Days(y) <= Days(z)
  {
    if y < z { DaysMonotone(y, z); }
  }

  /** Which instants fall in the years an int can hold. */
  lemma YearRange(t: TM)
    requires Civil(t)
    ensures FitsInt(t.year) <==> 86400 * Days(1900 - 0x8000_0000) <= SecondsOf(t) < 86400 * Days(1900 + 0x8000_0000)
  {
    hide Days, Leap, MonthStart, MonthLen, DayOf;
    var y, low, high := t.year + 1900, 1900 - 0x8000_0000, 1900 + 0x8000_0000;
    YdayRange(t);
    DaysStep(y);
    if y < low { DaysOrder(y + 1, low); } else { DaysOrder(low, y); }
    if y < high { DaysOrder(y + 1, high); } else { DaysOrder(high, y); }
  }

  /** There and back: the date of a date's instant is that date. */
  method DateRoundTrip(date: TM) returns (r: Option<TM>)
    requires Civil(date) && FitsInt(date.year)
    ensures r == Some(date)
  {
    YearRange(date);
    assert Days(1900 - 0x8000_0000) > -784_354_000_000 - 719_529 && Days(1900 + 0x8000_0000) < 784_354_000_000;
    hide Days;
    var seconds := Timegm64(date);
    r := Gmtime64(seconds);
    CivilUnique(date, r.value);
  }

  /** Back and there: the instant of an instant's date is that instant. */
  method TimeRoundTrip(time: int) returns (r: int)
    requires FitsInt64(time)
    requires 86400 * Days(1900 - 0x8000_0000) <= time < 86400 * Days(1900 + 0x8000_0000)
    ensures r == time
  {
    var t := Gmtime64(time);
    r := Timegm64(t.value);
  }

  // ---- years a 32-bit clock can handle ----

  const MAX_SAFE_YEAR := 2037
  const MIN_SAFE_YEAR := 1971

  const SafeYearsHigh: seq<int> := [
    2016, 2017, 2018, 2019, 2020, 2021, 2022, 2023, 2024, 2025, 2026, 2027, 2028, 2029,
    2030, 2031, 2032, 2033, 2034, 2035, 2036, 2037, 2010, 2011, 2012, 2013, 2014, 2015]

  const SafeYearsLow: seq<int> := [
    1996, 1997, 1998, 1971, 1972, 1973, 1974, 1975, 1976, 1977, 1978, 1979, 1980, 1981,
    1982, 1983, 1984, 1985, 1986, 1987, 1988, 1989, 1990, 1991, 1992, 1993, 1994, 1995]

  /** Exceptional centuries (xx00 years without a leap day) between 2000 and a year. */
  function Exceptions(y: int): int {
    (y - 1) / 100 - (y - 1) / 400 - 15
  }

  predicate IsExceptionCentury(y: int) {
    TruncMod(y, 100) == 0 && !(TruncMod(y, 400) == 0)
  }

  method CycleOffset(year: int) returns (offset: int)
    ensures offset == 16 * Exceptions(year)
  {
    var diff := year - 2000;
    if year > 2000 {
      diff := diff - 1;
    }
    CenturiesFrom2000(year, 100);
    CenturiesFrom2000(year, 400);
    hide TruncDiv;
    var exceptions := TruncDiv(diff, 100);
    exceptions := exceptions - TruncDiv(diff, 400);
    return exceptions * 16;
  }

  /** A century's quotient by truncation from 2000, on either side of it. */
  lemma CenturiesFrom2000(y: int, b: int)
    requires b == 100 || b == 400
    ensures TruncDiv(if y > 2000 then y - 2001 else y - 2000, b) == (y - 1) / b - 2000 / b + if y > 2000 then 0 else 1
  {
  }

  /** Same length, same weekday on 1 January of it and of the next year, and the year before has the same length. */
  predicate SameCalendar(y: int, s: int) {
    && Leap(s) == Leap(y) && Leap(s - 1) == Leap(y - 1)
    && (Days(s) - Days(y)) % 7 == 0
    && (Days(s + 1) - Days(y + 1)) % 7 == 0
  }

  /** How far a year is moved off the 28-year cycle because its leap day, or its predecessor's, is missing. */
  function Adjustment(y: int): int {
    if y % 100 == 0 && y % 400 != 0 then 11 else if (y - 1) % 100 == 0 && (y - 1) % 400 != 0 then 17 else 0
  }

  /** Near 2000 the Julian rule is enough. */
  lemma Recent(s: int)
    requires 1901 <= s <= 2099
    ensures Leap(s) <==> s % 4 == 0
    ensures Days(s) == 365 * (s - 1970) + (s - 1) / 4 - 492
  {
  }

  /** A year's length, read off its place in the four-year cycle once it is adjusted. */
  lemma AdjustedLeap(y: int)
    ensures Leap(y) <==> (y + Adjustment(y)) % 4 == 0
    ensures Leap(y - 1) <==> (y - 1 + Adjustment(y)) % 4 == 0
  {
    CenturyModFour(y);
    CenturyModFour(y - 1);
    Residues(y);
  }

  lemma CenturyModFour(y: int)
    ensures y % 400 == 0 ==> y % 100 == 0
    ensures y % 100 == 0 ==> y % 4 == 0
  {
    if y % 100 == 0 { DivIs(y, 4, 25 * (y / 100), 0); }
    if y % 400 == 0 { DivIs(y, 100, 4 * (y / 400), 0); }
  }

  lemma Residues(y: int)
    ensures y % 4 == 0 ==> (y - 1) % 4 == 3 && (y + 10) % 4 == 2 && (y + 11) % 4 == 3 && (y - 1) % 100 != 0
    ensures (y - 1) % 4 == 0 ==> y % 4 == 1 && (y + 16) % 4 == 1 && (y + 17) % 4 == 2
  {
    CenturyModFour(y - 1);
  }

  lemma SameModFour(a: int, n: int)
    ensures (a + 4 * n) % 4 == a % 4
  {
  }

  lemma Quarters(y: int)
    ensures y % 4 == 0 ==> (y + 10) / 4 == (y - 1) / 4 + 3
    ensures (y - 1) % 4 == 0 ==> (y + 16) / 4 == (y - 1) / 4 + 4
  {
  }

  /** The weekday, once adjusted: the leap days passed make up for the years moved. */
  lemma AdjustedDays(y: int)
    ensures var a := Adjustment(y); exists k :: 365 * a + (y + a - 1) / 4 - (y - 1) / 4 == 7 * k
  {
    var a := Adjustment(y);
    CenturyModFour(y);
    CenturyModFour(y - 1);
    Quarters(y);
    if a == 11 {
      assert 365 * a + (y + a - 1) / 4 - (y - 1) / 4 == 7 * 574;
    } else if a == 17 {
      assert 365 * a + (y + a - 1) / 4 - (y - 1) / 4 == 7 * 887;
    } else {
      assert 365 * a + (y + a - 1) / 4 - (y - 1) / 4 == 7 * 0;
    }
  }

  /** Moving by 16 years for every exceptional century and by any number of 28-year cycles keeps the calendar. */
  lemma CycleKeepsCalendar(y: int, t: int)
    requires var s := y + 16 * Exceptions(y) + Adjustment(y) + 28 * t; 1902 <= s <= 2098
    ensures SameCalendar(y, y + 16 * Exceptions(y) + Adjustment(y) + 28 * t)
  {
    var e, a := Exceptions(y), Adjustment(y);
    var n := 4 * e + 7 * t;
    var s := y + a + 4 * n;
    Recent(s);
    Recent(s - 1);
    AdjustedLeap(y);
    SameModFour(y + a, n);
    SameModFour(y + a - 1, n);
    assert Leap(s) == Leap(y) && Leap(s - 1) == Leap(y - 1);
    AdjustedDays(y);
    var k :| 365 * a + (y + a - 1) / 4 - (y - 1) / 4 == 7 * k;
    ShiftedDiv(y + a - 1, 4, n);
    assert Days(y) == 365 * (y - 1970) + (y - 1) / 4 - e - 492;
    assert Days(s) - Days(y) == 7 * (k + 835 * e + 1461 * t);
    DaysStep(s);
    DaysStep(y);
    hide Days, Leap;
    DivIs(Days(s) - Days(y), 7, k + 835 * e + 1461 * t, 0);
  }

  /** The place of a year in the 28-year cycle of the table it is looked up in. */
  method YearCycle(year: int) returns (cycle: int, ghost q: int)
    ensures 0 <= cycle < 28
    ensures 28 * q + cycle == year + 16 * Exceptions(year) + Adjustment(year) - if year < MIN_SAFE_YEAR then 8 else 0
  {
    var offset := CycleOffset(year);
    cycle := year + offset;
    if year < MIN_SAFE_YEAR {
      cycle := cycle - 8;
    }
    ExceptionSpec(year);
    hide Exceptions, Adjustment, IsExceptionCentury;
    if IsExceptionCentury(year) {
      cycle := cycle + 11;
    }
    if IsExceptionCentury(year - 1) {
      cycle := cycle + 17;
    }
    TruncDivSpec(cycle, 28);
    q := TruncDiv(cycle, 28);
    hide TruncMod, TruncDiv;
    cycle := TruncMod(cycle, 28);
    if cycle < 0 {
      cycle := 28 + cycle;
      q := q - 1;
    }
  }

  lemma ExceptionSpec(y: int)
    ensures Adjustment(y) == (if IsExceptionCentury(y) then 11 else 0) + if IsExceptionCentury(y - 1) then 17 else 0
  {
    TruncModZero(y, 100);
    TruncModZero(y, 400);
    TruncModZero(y - 1, 100);
    TruncModZero(y - 1, 400);
    CenturyModFour(y);
    Residues(y);
    hide TruncMod;
  }

  /** safe_year: a year of 1971 to 2037 with the same calendar, from the 28 at the end the year lies beyond. */
  method SafeYear(year: int) returns (s: int)
    ensures 1971 <= s <= 2037
    ensures 1971 <= year <= 2037 ==> s == year
    ensures year < 1971 ==> s < 1971 + 28
    ensures year > 2037 ==> s > 2037 - 28
    ensures SameCalendar(year, s)
  {
    if MIN_SAFE_YEAR <= year <= MAX_SAFE_YEAR {
      return year;
    }
    hide Exceptions, Adjustment, SameCalendar;
    var cycle;
    ghost var q;
    cycle, q := YearCycle(year);
    TableEntry(cycle);
    if year < MIN_SAFE_YEAR {
      s := SafeYearsLow[cycle];
      CycleKeepsCalendar(year, if cycle < 3 then 71 - q else 70 - q);
    } else {
      s := SafeYearsHigh[cycle];
      CycleKeepsCalendar(year, if cycle < 22 then 72 - q else 71 - q);
    }
  }

  lemma TableEntry(c: int)
    requires 0 <= c < 28
    ensures SafeYearsHigh[c] == c + if c < 22 then 2016 else 1988
    ensures SafeYearsLow[c] == c + if c < 3 then 1996 else 1968
  {
  }

  // ---- seconds between two years ----

  /** How many 400-year cycles seconds_between_years takes off the left year, and the year it is left with. */
  function Cycles(left: int): int {
    if left > 2400 then TruncDiv(left - 2400, 400) else if left < 1600 then TruncDiv(left - 1600, 400) else 0
  }

  function Near(left: int): int {
    if left > 2400 then left - 400 * Cycles(left) else if left < 1600 then left + 400 * Cycles(left) else left
  }

  /** Stepping from the right year towards the left one ends, unless the left year was moved past it. */
  predicate Meets(left: int, right: int) {
    left > right ==> right <= Near(left)
  }

  lemma MeetsIff(left: int, right: int)
    ensures Meets(left, right) <==> exists n: nat :: Reached(left, right, n)
  {
    NearIsCloser(left);
    if Meets(left, right) {
      var n := if left > right then Near(left) - right else right - Near(left);
      assert Reached(left, right, n);
    }
  }

  predicate Reached(left: int, right: int, n: nat) {
    (if left > right then right + n else right - n) == Near(left)
  }

  lemma NearIsCloser(left: int)
    ensures Near(left) <= left
    ensures left > 2400 ==> 2400 <= Near(left) < 2800 && Cycles(left) >= 0 && (Cycles(left) == 0 <==> left < 2800)
    ensures left < 1600 ==> Cycles(left) <= 0 && (Cycles(left) == 0 <==> left > 1200)
  {
  }

  /** The days it counts: forward those of the years in between, backward those of the years after the left up to the right. */
  function Between(left: int, right: int): int {
    if left > right then Days(left) - Days(right) + (if left < 1600 then 2 * 146097 * Cycles(left) else 0)
    else Days(left + 1) - Days(right + 1) - (if left > 2400 then 2 * 146097 * Cycles(left) else 0)
  }

  /** seconds_between_years, whenever its loop ends. */
  method SecondsBetweenYears(left: int, right: int) returns (seconds: int)
    requires FitsInt(left) && Meets(left, right)
    ensures seconds == 86400 * Between(left, right)
  {
    NearIsCloser(left);
    hide Days, Leap, IsLeap;
    var increment := if left > right then 1 else -1;
    var l := left;
    seconds := 0;
    if l > 2400 {
      var cycles := TruncDiv(l - 2400, 400);
      Cycle(l - cycles * 400, cycles);
      Cycle(l + 1 - cycles * 400, cycles);
      l := l - cycles * 400;
      seconds := seconds + cycles * (146097 * 86400);
    } else if l < 1600 {
      var cycles := TruncDiv(l - 1600, 400);
      Cycle(l, cycles);
      Cycle(l + 1, cycles);
      l := l + cycles * 400;
      seconds := seconds + cycles * (146097 * 86400);
    }
    assert l == Near(left);
    hide TruncDiv;
    var more := SumOfYears(l, right, increment);
    seconds := seconds + more;
    return seconds * increment;
  }

  /** The loop: the lengths of the years from r on, in either direction, until l. */
  method SumOfYears(l: int, right: int, increment: int) returns (seconds: int)
    requires increment == 1 ==> right <= l
    requires increment == -1 ==> l <= right
    requires increment == 1 || increment == -1
    ensures increment == 1 ==> seconds == 86400 * (Days(l) - Days(right))
    ensures increment == -1 ==> seconds == 86400 * (Days(right + 1) - Days(l + 1))
  {
    hide Days, Leap, IsLeap;
    seconds := 0;
    var r := right;
    while l != r
      invariant increment == 1 ==> r <= l && seconds == 86400 * (Days(r) - Days(right))
      invariant increment == -1 ==> l <= r && seconds == 86400 * (Days(right + 1) - Days(r + 1))
      decreases if increment == 1 then l - r else r - l
    {
      IsLeapSpec(r - 1900);
      DaysStep(r);
      seconds := seconds + YearLen(IsLeap(r - 1900)) * 60 * 60 * 24;
      r := r + increment;
    }
  }

  /**
   What is counted is the distance between the two January firsts if and only if, forward, the left year is after 1200,
   and backward, it is before 2800 and the two years are of one length.
   */
  lemma BetweenExactIff(left: int, right: int)
    ensures Between(left, right) == Days(left) - Days(right)
      <==> if left > right then left > 1200 else left < 2800 && Leap(left) == Leap(right)
  {
    NearIsCloser(left);
    DaysStep(left);
    DaysStep(right);
    hide Days, Leap, Cycles, Near;
  }

  /**
   What mktime64 adds for a year outside the safe range, if mktime carries the safe date by some years when it brings
   its fields into range: exactly the time from the safe date's year to the same year of the long count, if and only
   if it carries it by none.
   */
  method SafeYearShift(year: int, carry: int) returns (safe: int, seconds: int)
    requires FitsInt(year) && !(MIN_SAFE_YEAR <= year <= MAX_SAFE_YEAR) && -300 <= carry <= 300
    ensures MIN_SAFE_YEAR <= safe <= MAX_SAFE_YEAR && SameCalendar(year, safe)
    ensures seconds == 86400 * (Days(year + carry) - Days(safe + carry)) <==> carry == 0
  {
    safe := SafeYear(year);
    NearIsCloser(year);
    CarryIff(year, safe, carry);
    hide Days, Leap, Cycles, Near, Between, SameCalendar;
    seconds := SecondsBetweenYears(year, safe + carry);
  }

  lemma CarryIff(year: int, safe: int, carry: int)
    requires SameCalendar(year, safe) && MIN_SAFE_YEAR <= safe <= MAX_SAFE_YEAR && -300 <= carry <= 300
    ensures Meets(year, safe + carry)
    ensures Between(year, safe + carry) == Days(year + carry) - Days(safe + carry) <==> carry == 0
  {
    hide Days, Leap, Cycles, TruncDiv;
    NearIsCloser(year);
    DaysStep(year);
    DaysStep(safe + carry);
    if carry > 0 { DaysMonotone(year, year + carry); }
    if carry < 0 { DaysMonotone(year + carry, year); }
  }
}
