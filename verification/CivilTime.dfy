/**
 The civil date and time of an instant given in milliseconds since the epoch.
 The conversion is proved against the calendar itself: leap years, month
 lengths and the successor of a date.
 */
module CivilTime {

  datatype Date = Date(year: int, month: int, day: int)

  datatype Stamp = Stamp(date: Date, hour: int, minute: int, second: int, millis: int)

  // ---------------------------------------------------------------------------
  // The calendar
  // ---------------------------------------------------------------------------

  predicate Leap(year: int) {
    year % 4 == 0 && (year % 100 != 0 || year % 400 == 0)
  }

  function DaysInMonth(year: int, month: int): int {
    if month == 2 then (if Leap(year) then 29 else 28)
    else if month == 4 || month == 6 || month == 9 || month == 11 then 30
    else 31
  }

  predicate ValidDate(d: Date) {
    1 <= d.month <= 12 && 1 <= d.day <= DaysInMonth(d.year, d.month)
  }

  predicate ValidStamp(t: Stamp) {
    ValidDate(t.date) && 0 <= t.hour < 24 && 0 <= t.minute < 60 && 0 <= t.second < 60 && 0 <= t.millis < 1000
  }

  function NextDay(d: Date): Date {
    if d.day < DaysInMonth(d.year, d.month) then d.(day := d.day + 1)
    else if d.month < 12 then Date(d.year, d.month + 1, 1)
    else Date(d.year + 1, 1, 1)
  }

  predicate Earlier(a: Date, b: Date) {
    a.year < b.year || (a.year == b.year && (a.month < b.month || (a.month == b.month && a.day < b.day)))
  }

  /** Milliseconds into the day. */
  function TimeOfDay(t: Stamp): int {
    ((t.hour * 60 + t.minute) * 60 + t.second) * 1000 + t.millis
  }

  predicate EarlierStamp(a: Stamp, b: Stamp) {
    || Earlier(a.date, b.date)
    || (a.date == b.date &&
        (a.hour < b.hour || (a.hour == b.hour &&
         (a.minute < b.minute || (a.minute == b.minute &&
          (a.second < b.second || (a.second == b.second && a.millis < b.millis)))))))
  }

  // ---------------------------------------------------------------------------
  // The conversion
  // ---------------------------------------------------------------------------

  /** Days since 1970-01-01 to a civil date. */
  function Civil(days: int): Date {
    var z := days + 719468;
    var era := z / 146097;
    var doe := z % 146097;
    var yoe := YearOfEra(doe);
    FromMarch(era * 400 + yoe, doe - EraDays(yoe))
  }

  function YearOfEra(doe: int): int {
    (doe - doe / 1460 + doe / 36524 - doe / 146096) / 365
  }

  /** Days of an era before its year `yoe`; years start on 1 March. */
  function EraDays(yoe: int): int {
    365 * yoe + yoe / 4 - yoe / 100
  }

  /** The date of day `doy` of the year that started on 1 March of `y`. */
  function FromMarch(y: int, doy: int): Date {
    var mp := (5 * doy + 2) / 153;
    var month := if mp < 10 then mp + 3 else mp - 9;
    Date(y + (if month <= 2 then 1 else 0), month, doy - MonthStart(mp) + 1)
  }

  /** Days before month `mp` of a year that starts in March. */
  function MonthStart(mp: int): int {
    (153 * mp + 2) / 5
  }

  function FormatTime(ms: int): Stamp {
    var secs := ms / 1000;
    var rem := secs % 86400;
    Stamp(Civil(secs / 86400), rem / 3600, rem % 3600 / 60, rem % 60, ms % 1000)
  }

  // ---------------------------------------------------------------------------
  // Back to a number
  // ---------------------------------------------------------------------------

  /** Days from 1 March of year 0 to 1 March of year `y`. */
  function MarchDays(y: int): int {
    365 * y + y / 4 - y / 100 + y / 400
  }

  function MarchYear(d: Date): int {
    if d.month <= 2 then d.year - 1 else d.year
  }

  function MarchMonth(d: Date): int {
    if d.month <= 2 then d.month + 9 else d.month - 3
  }

  function DayNumber(d: Date): int {
    MarchDays(MarchYear(d)) + MonthStart(MarchMonth(d)) + d.day - 1 - 719468
  }

  function Instant(t: Stamp): int {
    DayNumber(t.date) * 86400000 + TimeOfDay(t)
  }

  // ---------------------------------------------------------------------------
  // Years
  // ---------------------------------------------------------------------------

  /** The year of the era, from the position within century, four-year cycle and year. */
  lemma YearOfEraExact(c: int, q: int, s: int)
    requires 0 <= c <= 3 && 0 <= q <= 24 && 0 <= s <= 1460 && 1461 * q + s < 36524
    ensures YearOfEra(36524 * c + 1461 * q + s) == 100 * c + 4 * q + (if s == 1460 then 3 else s / 365)
  {
    var doe := 36524 * c + 1461 * q + s;
    var r := 1461 * q + s;
    assert doe / 36524 == c;
    assert doe / 146096 == 0;
    var e := if 24 * c + q + s >= 1460 then 1 else 0;
    assert doe == 1460 * (25 * c + q) + (24 * c + q + s);
    assert doe / 1460 == 25 * c + q + e;
    assert doe - doe / 1460 + c == 365 * (100 * c + 4 * q) + (s - e);
  }

  /** The day of the year is never negative and never past its last day. */
  lemma EraYearBounds(doe: int)
    requires 0 <= doe < 146097
    ensures 0 <= YearOfEra(doe) < 400
    ensures EraDays(YearOfEra(doe)) <= doe
    ensures YearOfEra(doe) < 399 ==> doe < EraDays(YearOfEra(doe) + 1)
  {
    LastDayOfEra();
    hide YearOfEra, EraDays;
    if doe != 146096 {
      var c, r := doe / 36524, doe % 36524;
      var q, s := r / 1461, r % 1461;
      YearOfEraExact(c, q, s);
      var k := if s == 1460 then 3 else s / 365;
      EraDaysOf(c, q, k);
      if k < 3 {
        EraDaysOf(c, q, k + 1);
      } else if q < 24 {
        EraDaysOf(c, q + 1, 0);
      } else if c < 3 {
        EraDaysOf(c + 1, 0, 0);
      }
    }
  }

  lemma LastDayOfEra()
    ensures YearOfEra(146096) == 399 && EraDays(399) == 145731 && EraDays(400) == 146096
  {
  }

  lemma EraDaysOf(c: int, q: int, k: int)
    requires 0 <= c <= 3 && 0 <= q <= 24 && 0 <= k <= 3
    ensures EraDays(100 * c + 4 * q + k) == 36524 * c + 1461 * q + 365 * k
  {
    var y := 100 * c + 4 * q + k;
    assert y / 4 == 25 * c + q;
    assert y / 100 == c;
  }

  lemma MarchDaysOfEra(era: int, yoe: int)
    requires 0 <= yoe <= 400
    ensures MarchDays(era * 400 + yoe) == 146097 * era + EraDays(yoe) + (if yoe == 400 then 1 else 0)
  {
    var y := era * 400 + yoe;
    assert y / 4 == 100 * era + yoe / 4;
    assert y / 100 == 4 * era + yoe / 100;
    assert y / 400 == era + yoe / 400;
  }

  lemma Quarters(n: int)
    ensures n / 4 - (n - 1) / 4 == if n % 4 == 0 then 1 else 0
  {
  }

  lemma Hundredths(n: int)
    ensures n / 100 - (n - 1) / 100 == if n % 100 == 0 then 1 else 0
    ensures n % 100 == 0 ==> n % 4 == 0
  {
    if n % 100 == 0 {
      assert n == 4 * (25 * (n / 100));
    }
  }

  lemma FourHundredths(n: int)
    ensures n / 400 - (n - 1) / 400 == if n % 400 == 0 then 1 else 0
    ensures n % 400 == 0 ==> n % 100 == 0
  {
    if n % 400 == 0 {
      assert n == 100 * (4 * (n / 400));
    }
  }

  lemma MarchYearLength(y: int)
    ensures MarchDays(y + 1) - MarchDays(y) == if Leap(y + 1) then 366 else 365
  {
    Quarters(y + 1);
    Hundredths(y + 1);
    FourHundredths(y + 1);
  }

  lemma {:induction false} MarchDaysIncrease(a: int, b: int)
    requires a <= b
    ensures MarchDays(a) + 365 * (b - a) <= MarchDays(b)
    decreases b - a
  {
    if a < b {
      MarchDaysIncrease(a, b - 1);
      MarchYearLength(b - 1);
    }
  }

  /** Day `z` (counted from 1 March of year 0) is day `doy` of the March-based year `y`. */
  predicate InYear(z: int, y: int, doy: int) {
    0 <= doy && z == MarchDays(y) + doy && z < MarchDays(y + 1)
  }

  lemma InYearUnique(z: int, y: int, doy: int, y': int, doy': int)
    requires InYear(z, y, doy) && InYear(z, y', doy')
    ensures y == y' && doy == doy'
  {
    if y < y' {
      MarchDaysIncrease(y + 1, y');
    } else if y' < y {
      MarchDaysIncrease(y' + 1, y);
    }
  }

  lemma EraOf(z: int) returns (era: int, doe: int)
    ensures era == z / 146097 && doe == z % 146097 && 0 <= doe < 146097 && 146097 * era + doe == z
  {
    era, doe := z / 146097, z % 146097;
  }

  /** A day of an era lies in the year the code finds for it. */
  lemma EraDayInYear(era: int, doe: int)
    requires 0 <= doe < 146097
    ensures var yoe := YearOfEra(doe); InYear(146097 * era + doe, era * 400 + yoe, doe - EraDays(yoe))
  {
    hide YearOfEra, EraDays, MarchDays;
    var yoe := YearOfEra(doe);
    EraYearBounds(doe);
    LastDayOfEra();
    MarchDaysOfEra(era, yoe);
    MarchDaysOfEra(era, yoe + 1);
    assert era * 400 + (yoe + 1) == era * 400 + yoe + 1;
  }

  /** The conversion finds the March-based year of every day. */
  lemma CivilInYear(days: int) returns (y: int, doy: int)
    ensures InYear(days + 719468, y, doy)
    ensures Civil(days) == FromMarch(y, doy)
  {
    hide YearOfEra, EraDays, FromMarch, InYear;
    var era, doe := EraOf(days + 719468);
    EraDayInYear(era, doe);
    y, doy := era * 400 + YearOfEra(doe), doe - EraDays(YearOfEra(doe));
  }

  // ---------------------------------------------------------------------------
  // Months
  // ---------------------------------------------------------------------------

  lemma MonthOfDay(doy: int)
    requires 0 <= doy <= 365
    ensures var mp := (5 * doy + 2) / 153; 0 <= mp <= 11 && MonthStart(mp) <= doy < MonthStart(mp + 1)
  {
    var mp := (5 * doy + 2) / 153;
    assert 153 * mp <= 5 * doy + 2 < 153 * (mp + 1);
  }

  lemma MonthUnique(doy: int, mp: int)
    requires 0 <= mp <= 11 && MonthStart(mp) <= doy < MonthStart(mp + 1)
    ensures (5 * doy + 2) / 153 == mp
  {
    assert 153 * mp <= 5 * doy + 2 < 153 * (mp + 1);
  }

  /** The month table of the calendar is the one the conversion computes. */
  lemma MonthLength(mp: int, year: int)
    requires 0 <= mp <= 10
    ensures MonthStart(mp + 1) - MonthStart(mp) == DaysInMonth(year, if mp < 10 then mp + 3 else mp - 9)
  {
    if mp == 0 {} else if mp == 1 {} else if mp == 2 {} else if mp == 3 {} else if mp == 4 {} else if mp == 5 {}
    else if mp == 6 {} else if mp == 7 {} else if mp == 8 {} else if mp == 9 {} else {}
  }

  lemma FromMarchValid(z: int, y: int, doy: int)
    requires InYear(z, y, doy)
    ensures ValidDate(FromMarch(y, doy))
    ensures MarchYear(FromMarch(y, doy)) == y
    ensures MonthStart(MarchMonth(FromMarch(y, doy))) + FromMarch(y, doy).day - 1 == doy
  {
    MarchYearLength(y);
    hide Leap;
    MonthOfDay(doy);
    var mp := (5 * doy + 2) / 153;
    if mp <= 10 {
      MonthLength(mp, FromMarch(y, doy).year);
    } else {
      assert MonthStart(11) == 337;
    }
  }

  /** Within a March-based year the next day is the calendar's next day. */
  lemma NextInYear(y: int, doy: int)
    requires 0 <= doy && doy + 1 < (if Leap(y + 1) then 366 else 365)
    ensures NextDay(FromMarch(y, doy)) == FromMarch(y, doy + 1)
  {
    hide Leap;
    MonthOfDay(doy);
    var mp := (5 * doy + 2) / 153;
    assert MonthStart(11) == 337 && MonthStart(12) == 367;
    if mp == 11 {
      MonthUnique(doy + 1, 11);
    } else {
      MonthLength(mp, FromMarch(y, doy).year);
      if doy + 1 < MonthStart(mp + 1) {
        MonthUnique(doy + 1, mp);
      } else {
        assert MonthStart(mp + 2) > doy + 1;
        MonthUnique(doy + 1, mp + 1);
      }
    }
  }

  /** After the last day of February comes 1 March. */
  lemma NextYear(y: int)
    ensures NextDay(FromMarch(y, if Leap(y + 1) then 365 else 364)) == FromMarch(y + 1, 0)
  {
    hide Leap;
    assert MonthStart(11) == 337 && MonthStart(12) == 367 && MonthStart(0) == 0;
    MonthUnique(365, 11);
    MonthUnique(364, 11);
    MonthUnique(0, 0);
  }

  lemma FromMarchNext(z: int, y: int, doy: int)
    requires InYear(z, y, doy)
    ensures NextDay(FromMarch(y, doy)) ==
            if z + 1 < MarchDays(y + 1) then FromMarch(y, doy + 1) else FromMarch(y + 1, 0)
  {
    MarchYearLength(y);
    hide Leap, NextDay, FromMarch, MarchDays;
    if z + 1 < MarchDays(y + 1) {
      NextInYear(y, doy);
    } else {
      NextYear(y);
    }
  }

  // ---------------------------------------------------------------------------
  // Main results
  // ---------------------------------------------------------------------------

  /** Day 0 is 1 January 1970, and each next day is the calendar's next day: this fixes the date of every day. */
  lemma CivilFollowsCalendar(days: int)
    ensures Civil(0) == Date(1970, 1, 1)
    ensures ValidDate(Civil(days))
    ensures Civil(days + 1) == NextDay(Civil(days))
  {
    var y, doy := CivilInYear(days);
    var y', doy' := CivilInYear(days + 1);
    var z := days + 719468;
    hide Civil, FromMarch, NextDay;
    FromMarchValid(z, y, doy);
    FromMarchNext(z, y, doy);
    MarchYearLength(y);
    MarchYearLength(y + 1);
    if z + 1 < MarchDays(y + 1) {
      InYearUnique(z + 1, y, doy + 1, y', doy');
    } else {
      InYearUnique(z + 1, y + 1, 0, y', doy');
    }
    Epoch();
  }

  lemma Epoch()
    ensures Civil(0) == Date(1970, 1, 1)
  {
    assert 719468 / 146097 == 4 && 719468 % 146097 == 135080;
    assert YearOfEra(135080) == 369 by {
      assert 135080 / 1460 == 92 && 135080 / 36524 == 3 && 135080 / 146096 == 0;
    }
    assert EraDays(369) == 134774;
    assert MonthStart(10) == 306;
    hide YearOfEra, EraDays, MonthStart;
  }

  /** Converting the date back gives the same day number. */
  lemma DayNumberOfCivil(days: int)
    ensures DayNumber(Civil(days)) == days
  {
    var y, doy := CivilInYear(days);
    hide Civil, FromMarch;
    FromMarchValid(days + 719468, y, doy);
  }

  /** Day of the March-based year. */
  function MarchDay(d: Date): int {
    MonthStart(MarchMonth(d)) + d.day - 1
  }

  lemma DateInYear(d: Date)
    requires ValidDate(d)
    ensures InYear(DayNumber(d) + 719468, MarchYear(d), MarchDay(d))
    ensures MarchDay(d) < MonthStart(MarchMonth(d) + 1)
  {
    MarchYearLength(MarchYear(d));
    hide Leap;
    var mp := MarchMonth(d);
    if mp <= 10 {
      MonthLength(mp, d.year);
      MonthStartBound(mp);
    } else {
      assert MonthStart(11) == 337 && MonthStart(12) == 367;
    }
  }

  lemma FromMarchOf(d: Date)
    requires ValidDate(d)
    ensures FromMarch(MarchYear(d), MarchDay(d)) == d
  {
    DateInYear(d);
    hide InYear;
    MonthUnique(MarchDay(d), MarchMonth(d));
  }

  /** Every valid date is the date of its own day number, so the date of a day is unique. */
  lemma CivilOfDayNumber(d: Date)
    requires ValidDate(d)
    ensures Civil(DayNumber(d)) == d
  {
    var y, doy := CivilInYear(DayNumber(d));
    DateInYear(d);
    FromMarchOf(d);
    hide Civil, DayNumber, MarchDay, MarchYear, FromMarch, InYear, ValidDate, MonthStart, MarchMonth;
    InYearUnique(DayNumber(d) + 719468, MarchYear(d), MarchDay(d), y, doy);
  }

  lemma MonthStartBound(mp: int)
    requires 0 <= mp <= 10
    ensures MonthStart(mp + 1) <= 337
  {
  }

  /** The day number respects the order of dates. */
  lemma DayNumberMonotone(a: Date, b: Date)
    requires ValidDate(a) && ValidDate(b) && Earlier(a, b)
    ensures DayNumber(a) < DayNumber(b)
  {
    if DayNumber(a) >= DayNumber(b) {
      CivilOfDayNumber(a);
      CivilOfDayNumber(b);
      CivilLater(DayNumber(b), DayNumber(a));
    }
  }

  lemma NextDayLater(d: Date)
    requires ValidDate(d)
    ensures Earlier(d, NextDay(d))
  {
  }

  lemma {:induction false} CivilLater(m: int, n: int)
    requires m <= n
    ensures Civil(m) == Civil(n) || Earlier(Civil(m), Civil(n))
    ensures m < n ==> Earlier(Civil(m), Civil(n))
    decreases n - m
  {
    hide Civil, ValidDate, NextDay;
    if m < n {
      CivilLater(m, n - 1);
      CivilFollowsCalendar(n - 1);
      NextDayLater(Civil(n - 1));
    }
  }

  /** Hours, minutes and seconds of a second of the day. */
  lemma ClockParts(rem: int)
    requires 0 <= rem < 86400
    ensures rem / 3600 < 24 && 0 <= rem % 3600 / 60 < 60
    ensures ((rem / 3600) * 60 + rem % 3600 / 60) * 60 + rem % 60 == rem
  {
    var h, r := rem / 3600, rem % 3600;
    assert rem == 60 * (60 * h) + r;
    SameRemainder(60 * h, r);
  }

  lemma SameRemainder(k: int, r: int)
    ensures (60 * k + r) % 60 == r % 60
  {
  }

  /** The parts are determined by the second they add up to. */
  lemma ClockUnique(h: int, m: int, s: int)
    requires 0 <= h < 24 && 0 <= m < 60 && 0 <= s < 60
    ensures var rem := (h * 60 + m) * 60 + s;
            0 <= rem < 86400 && rem / 3600 == h && rem % 3600 / 60 == m && rem % 60 == s
  {
    var rem := (h * 60 + m) * 60 + s;
    assert rem == 3600 * h + (60 * m + s);
    assert rem / 3600 == h && rem % 3600 == 60 * m + s;
    assert rem == 60 * (60 * h + m) + s;
    SameRemainder(60 * h + m, s);
  }

  /** Main result: the stamp is valid and denotes exactly the instant it was computed from. */
  lemma FormatTimeExact(ms: int)
    ensures ValidStamp(FormatTime(ms))
    ensures Instant(FormatTime(ms)) == ms
  {
    var secs := ms / 1000;
    var days, rem := secs / 86400, secs % 86400;
    CivilFollowsCalendar(days);
    DayNumberOfCivil(days);
    ClockParts(rem);
    hide Civil, DayNumber, ValidDate;
    assert ms == 1000 * (86400 * days + rem) + ms % 1000;
    StampInstant(FormatTime(ms), days, rem, ms % 1000);
  }

  lemma StampInstant(t: Stamp, days: int, rem: int, millis: int)
    requires DayNumber(t.date) == days && (t.hour * 60 + t.minute) * 60 + t.second == rem && t.millis == millis
    ensures Instant(t) == 1000 * (86400 * days + rem) + millis
  {
    hide DayNumber;
  }

  /** A valid stamp is the one its instant is formatted to. */
  lemma FormatTimeUnique(t: Stamp)
    requires ValidStamp(t)
    ensures FormatTime(Instant(t)) == t
  {
    hide Civil, DayNumber, ValidDate, Instant;
    CivilOfDayNumber(t.date);
    ClockUnique(t.hour, t.minute, t.second);
    var days := DayNumber(t.date);
    var rem := (t.hour * 60 + t.minute) * 60 + t.second;
    StampInstant(t, days, rem, t.millis);
    DayAndSecond(days, rem, t.millis);
    var ms := 1000 * (86400 * days + rem) + t.millis;
    assert FormatTime(ms) == Stamp(Civil(days), rem / 3600, rem % 3600 / 60, rem % 60, t.millis);
  }

  lemma DayAndSecond(days: int, rem: int, millis: int)
    requires 0 <= rem < 86400 && 0 <= millis < 1000
    ensures var ms := 1000 * (86400 * days + rem) + millis;
            ms / 1000 / 86400 == days && ms / 1000 % 86400 == rem && ms % 1000 == millis
  {
    var ms := 1000 * (86400 * days + rem) + millis;
    assert ms / 1000 == 86400 * days + rem && ms % 1000 == millis;
  }

  /** Later instants never give an earlier stamp; distinct instants give distinct ones. */
  lemma FormatTimeMonotone(a: int, b: int)
    requires a < b
    ensures EarlierStamp(FormatTime(a), FormatTime(b))
  {
    var da, db := a / 1000 / 86400, b / 1000 / 86400;
    CivilLater(da, db);
    hide Civil, DayNumber;
    FormatTimeExact(a);
    FormatTimeExact(b);
    if da == db {
      assert TimeOfDay(FormatTime(a)) < TimeOfDay(FormatTime(b));
    }
  }
}
