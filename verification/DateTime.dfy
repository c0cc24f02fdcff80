/**
  Calendar arithmetic: deps/common/time/datetime.h and deps/common/time/datetime.cpp.
 */
module DateTimes {
  // --- Division as in C++: it truncates toward zero ---

  function Quot(a: int, b: int): int
    requires b > 0
  {
    if a >= 0 then a / b else -((-a) / b)
  }

  function Rem(a: int, b: int): int
    requires b > 0
  {
    a - b * Quot(a, b)
  }

  // --- The Gregorian calendar ---

  predicate Leap(year: int) {
    year % 400 == 0 || (year % 100 != 0 && year % 4 == 0)
  }

  function MonthLength(year: int, month: int): int {
    if month == 2 then (if Leap(year) then 29 else 28)
    else if month == 4 || month == 6 || month == 9 || month == 11 then 30
    else 31
  }

  datatype Date = Date(year: int, month: int, day: int)

  /** A date of the proleptic Gregorian calendar, from March 1 of the year -4800 on. */
  predicate ValidDate(d: Date) {
    && (d.year >= -4799 || (d.year == -4800 && d.month >= 3))
    && 1 <= d.month <= 12 && 1 <= d.day <= MonthLength(d.year, d.month)
  }

  function NextDay(d: Date): Date {
    if d.day < MonthLength(d.year, d.month) then d.(day := d.day + 1)
    else if d.month < 12 then Date(d.year, d.month + 1, 1)
    else Date(d.year + 1, 1, 1)
  }

  predicate Before(a: Date, b: Date) {
    a.year < b.year || (a.year == b.year && (a.month < b.month || (a.month == b.month && a.day < b.day)))
  }

  // --- The conversions ---

  /** `julian_date`. */
  function JulianDate(year: int, month: int, day: int): int {
    var a := Quot(14 - month, 12);
    var y := year + 4800 - a;
    var m := month + 12 * a - 3;
    day + Quot(153 * m + 2, 5) + y * 365 + Quot(y, 4) - Quot(y, 100) + Quot(y, 400) - 32045
  }

  function Julian(d: Date): int {
    JulianDate(d.year, d.month, d.day)
  }

  /** `get_ymd`. */
  function Ymd(jday: int): Date {
    var a := jday + 32044;
    var b := Quot(4 * a + 3, 146097);
    YearDay(b, a - Quot(b * 146097, 4))
  }

  /** The middle lines: year and the rest from the day `c` of century `b`. */
  function YearDay(b: int, c: int): Date {
    var d := Quot(4 * c + 3, 1461);
    MonthDay(b * 100 + d, c - Quot(1461 * d, 4))
  }

  /** The last lines of `get_ymd`: month and day from the day `e` of shifted year `y`. */
  function MonthDay(y: int, e: int): Date {
    var m := Quot(5 * e + 2, 153);
    Date(y - 4800 + Quot(m, 10), m + 3 - 12 * Quot(m, 10), e - Quot(153 * m + 2, 5) + 1)
  }

  // --- Years that begin in March: the leap day comes last ---

  /** Shifted year `y` begins on March 1 of year `y - 4800`. */
  function YearLength(y: nat): int {
    if Leap(y + 1) then 366 else 365
  }

  /** Days before shifted year `y`. */
  function YearStart(y: nat): int {
    if y == 0 then 0 else YearStart(y - 1) + YearLength(y - 1)
  }

  /** Days before shifted month `m`, from March = 0 to February = 11. */
  function MonthStart(m: nat): int {
    (153 * m + 2) / 5
  }

  function ShiftedLength(y: nat, m: nat): int {
    if m == 11 then (if Leap(y + 1) then 29 else 28)
    else if m == 1 || m == 3 || m == 6 || m == 8 then 30
    else 31
  }

  /** A date in shifted terms: year, month, and days since the first of the month. */
  datatype Shifted = Shifted(y: nat, m: nat, k: nat)

  predicate ValidShifted(s: Shifted) {
    s.m < 12 && s.k < ShiftedLength(s.y, s.m)
  }

  function Number(s: Shifted): int {
    YearStart(s.y) + MonthStart(s.m) + s.k
  }

  function Shift(d: Date): Shifted
    requires ValidDate(d)
  {
    if d.month <= 2 then Shifted(d.year + 4799, d.month + 9, d.day - 1)
    else Shifted(d.year + 4800, d.month - 3, d.day - 1)
  }

  function Unshift(s: Shifted): Date {
    if s.m >= 10 then Date(s.y - 4799, s.m - 9, s.k + 1) else Date(s.y - 4800, s.m + 3, s.k + 1)
  }

  function Closed(y: nat): int {
    365 * y + y / 4 - y / 100 + y / 400
  }

  lemma DivNext4(y: nat)
    ensures (y + 1) / 4 == y / 4 + if (y + 1) % 4 == 0 then 1 else 0
  {
  }

  lemma DivNext100(y: nat)
    ensures (y + 1) / 100 == y / 100 + if (y + 1) % 100 == 0 then 1 else 0
  {
  }

  lemma DivNext400(y: nat)
    ensures (y + 1) / 400 == y / 400 + if (y + 1) % 400 == 0 then 1 else 0
  {
  }

  lemma Multiples(z: nat)
    ensures z % 400 == 0 ==> z % 100 == 0
    ensures z % 100 == 0 ==> z % 4 == 0
  {
    if z % 400 == 0 { assert z == 100 * (4 * (z / 400)); }
    if z % 100 == 0 { assert z == 4 * (25 * (z / 100)); }
  }

  lemma ClosedNext(y: nat)
    ensures Closed(y + 1) == Closed(y) + YearLength(y)
  {
    DivNext4(y);
    DivNext100(y);
    DivNext400(y);
    Multiples(y + 1);
  }

  /** The formula for the days of whole years. */
  lemma {:induction false} YearStartClosed(y: nat)
    ensures YearStart(y) == Closed(y)
  {
    if y > 0 {
      YearStartClosed(y - 1);
      ClosedNext(y - 1);
    }
  }

  lemma LeapShift(year: int)
    ensures Leap(year + 4800) == Leap(year)
  {
  }

  lemma ShiftValid(d: Date)
    requires ValidDate(d)
    ensures ValidShifted(Shift(d)) && Unshift(Shift(d)) == d
  {
    LeapShift(d.year);
  }

  lemma UnshiftValid(s: Shifted)
    requires ValidShifted(s)
    ensures ValidDate(Unshift(s)) && Shift(Unshift(s)) == s
  {
    LeapShift(s.y - 4799);
  }

  lemma JulianClosed(d: Date)
    requires ValidDate(d)
    ensures var s := Shift(d); Julian(d) == Closed(s.y) + MonthStart(s.m) + s.k - 32044
  {
    var s := Shift(d);
    assert Quot(14 - d.month, 12) == if d.month <= 2 then 1 else 0;
    assert Quot(s.y, 4) == s.y / 4 && Quot(s.y, 100) == s.y / 100 && Quot(s.y, 400) == s.y / 400;
    assert Quot(153 * s.m + 2, 5) == MonthStart(s.m);
  }

  /** The day number counts the days of the calendar. */
  lemma JulianIsNumber(d: Date)
    requires ValidDate(d)
    ensures Julian(d) == Number(Shift(d)) - 32044
  {
    JulianClosed(d);
    YearStartClosed(Shift(d).y);
  }

  /** Months follow each other without a gap and fill the year. */
  lemma MonthNext(y: nat, m: nat)
    requires m < 12
    ensures MonthStart(m) + ShiftedLength(y, m) == if m == 11 then YearLength(y) else MonthStart(m + 1)
  {
  }

  // --- Decoding a number ---

  /** Centuries and years within: four centuries are 146097 days, four years of a century 1461. */
  lemma YearStartSplit(b: nat, r: nat)
    requires r < 100
    ensures YearStart(100 * b + r) == b * 146097 / 4 + 1461 * r / 4
  {
    var y := 100 * b + r;
    YearStartClosed(y);
    assert y / 4 == 25 * b + r / 4 && y / 100 == b;
    assert y / 400 == b / 4;
    assert b * 146097 / 4 == 36524 * b + b / 4;
    assert 1461 * r / 4 == 365 * r + r / 4;
  }

  lemma LeapSplit(b: nat, r: nat)
    requires r < 100
    ensures Leap(100 * b + r + 1) <==> if r == 99 then b % 4 == 3 else r % 4 == 3
  {
    var y := 100 * b + r + 1;
    if r == 99 {
      assert y == 100 * (b + 1);
      assert y % 400 == 0 <==> (b + 1) % 4 == 0;
    } else {
      assert y % 100 == r + 1;
      assert y % 4 == (r + 1) % 4;
    }
  }

  /** The century of day `a`, and the day within it. */
  lemma Century(a: nat, b: nat, c: int)
    requires c == a - b * 146097 / 4
    ensures (4 * a + 3) / 146097 == b <==> 0 <= c <= 36524 && (c == 36524 ==> b % 4 == 3)
  {
    assert 4 * (b * 146097 / 4) == b * 146097 - b % 4;
    assert 4 * a + 3 == 146097 * b + (4 * c + 3 - b % 4);
  }

  /** The year of day `c` of a century, and the day within it. */
  lemma YearOf(c: nat, r: nat, e: int)
    requires e == c - 1461 * r / 4
    ensures (4 * c + 3) / 1461 == r <==> 0 <= e <= 365 && (e == 365 ==> r % 4 == 3)
  {
    assert 4 * (1461 * r / 4) == 1461 * r - r % 4;
    assert 4 * c + 3 == 1461 * r + (4 * e + 3 - r % 4);
  }

  /** The month of day `e` of a shifted year. */
  lemma MonthOf(y: nat, e: nat, m: nat)
    requires e < YearLength(y)
    ensures (5 * e + 2) / 153 == m <==> m < 12 && 0 <= e - MonthStart(m) < ShiftedLength(y, m)
  {
  }

  lemma InYear(s: Shifted)
    requires ValidShifted(s)
    ensures 0 <= MonthStart(s.m) + s.k < YearLength(s.y)
  {
  }

  lemma MonthDayFrom(y: nat, e: nat, m: nat)
    requires m == (5 * e + 2) / 153 && m < 12 && e >= MonthStart(m)
    ensures MonthDay(y, e) == Unshift(Shifted(y, m, e - MonthStart(m)))
  {
    assert Quot(5 * e + 2, 153) == m && Quot(153 * m + 2, 5) == MonthStart(m);
    assert Quot(m, 10) == if m >= 10 then 1 else 0;
  }

  /** The middle step: the year from the day `c` of century `b`. */
  lemma YearFrom(c: nat, r: nat, e: nat)
    requires r == (4 * c + 3) / 1461 && e == c - 1461 * r / 4
    ensures Quot(4 * c + 3, 1461) == r && c - Quot(1461 * r, 4) == e
  {
  }

  lemma CenturyFrom(a: nat, b: nat)
    requires b == (4 * a + 3) / 146097
    ensures Quot(4 * a + 3, 146097) == b && Quot(b * 146097, 4) == b * 146097 / 4
  {
  }

  lemma CenturyStep(a: int, b: int, c: int)
    requires b == Quot(4 * a + 3, 146097) && c == a - Quot(b * 146097, 4)
    ensures Ymd(a - 32044) == YearDay(b, c)
  {
  }

  lemma YearStep(b: int, c: int, r: int, e: int)
    requires r == Quot(4 * c + 3, 1461) && e == c - Quot(1461 * r, 4)
    ensures YearDay(b, c) == MonthDay(b * 100 + r, e)
  {
  }

  lemma YmdSteps(a: int, b: int, c: int, r: int, e: int)
    requires b == Quot(4 * a + 3, 146097) && c == a - Quot(b * 146097, 4)
    requires r == Quot(4 * c + 3, 1461) && e == c - Quot(1461 * r, 4)
    ensures Ymd(a - 32044) == MonthDay(b * 100 + r, e)
  {
    CenturyStep(a, b, c);
    YearStep(b, c, r, e);
  }

  /** `Ymd` from the parts that its divisions find. */
  lemma YmdFrom(a: nat, b: nat, c: nat, r: nat, e: nat, m: nat)
    requires b == (4 * a + 3) / 146097 && c == a - b * 146097 / 4
    requires r == (4 * c + 3) / 1461 && e == c - 1461 * r / 4
    requires m == (5 * e + 2) / 153 && m < 12 && e >= MonthStart(m)
    ensures Ymd(a - 32044) == Unshift(Shifted(100 * b + r, m, e - MonthStart(m)))
  {
    CenturyFrom(a, b);
    YearFrom(c, r, e);
    YmdSteps(a, b, c, r, e);
    MonthDayFrom(b * 100 + r, e, m);
  }

  lemma CenturyDay(b: nat, r: nat, e: nat)
    requires r < 100 && e < YearLength(100 * b + r)
    ensures var c := 1461 * r / 4 + e; 0 <= c <= 36524 && (c == 36524 ==> b % 4 == 3) && (e == 365 ==> r % 4 == 3)
  {
    LeapSplit(b, r);
  }

  lemma NumberParts(jday: int, b: nat, r: nat, e: nat, s: Shifted)
    requires r < 100 && s.y == 100 * b + r && ValidShifted(s) && e == MonthStart(s.m) + s.k < YearLength(s.y)
    requires jday + 32044 == b * 146097 / 4 + 1461 * r / 4 + e
    ensures jday >= -32044 && Ymd(jday) == Unshift(s)
  {
    var c := 1461 * r / 4 + e;
    CenturyDay(b, r, e);
    Century(jday + 32044, b, c);
    YearOf(c, r, e);
    MonthOf(s.y, e, s.m);
    YmdFrom(jday + 32044, b, c, r, e, s.m);
  }

  lemma SplitNumber(s: Shifted, b: nat, r: nat)
    requires r < 100 && s.y == 100 * b + r
    ensures Number(s) == b * 146097 / 4 + 1461 * r / 4 + (MonthStart(s.m) + s.k)
  {
    YearStartSplit(b, r);
  }

  lemma YmdOfParts(s: Shifted, b: nat, r: nat, jday: int)
    requires ValidShifted(s) && r < 100 && s.y == 100 * b + r && jday == Number(s) - 32044
    ensures jday >= -32044 && Ymd(jday) == Unshift(s)
  {
    InYear(s);
    SplitNumber(s, b, r);
    NumberParts(jday, b, r, MonthStart(s.m) + s.k, s);
  }

  lemma YmdOfNumber(s: Shifted, jday: int)
    requires ValidShifted(s) && jday == Number(s) - 32044
    ensures jday >= -32044 && Ymd(jday) == Unshift(s)
  {
    YmdOfParts(s, s.y / 100, s.y % 100, jday);
  }

  lemma NumberOfYmd(a: nat) returns (s: Shifted)
    ensures ValidShifted(s) && Number(s) == a
  {
    var b := (4 * a + 3) / 146097;
    var c := a - b * 146097 / 4;
    Century(a, b, c);
    var r := (4 * c + 3) / 1461;
    var e := c - 1461 * r / 4;
    YearOf(c, r, e);
    assert r < 100;
    YearStartSplit(b, r);
    LeapSplit(b, r);
    var y, m := 100 * b + r, (5 * e + 2) / 153;
    assert e < YearLength(y);
    MonthOf(y, e, m);
    s := Shifted(y, m, e - MonthStart(m));
  }

  /** Every date is recovered from its day number. */
  lemma YmdOfJulian(d: Date)
    requires ValidDate(d)
    ensures Julian(d) >= -32044 && Ymd(Julian(d)) == d
  {
    ShiftValid(d);
    JulianIsNumber(d);
    YmdOfNumber(Shift(d), Julian(d));
  }

  /** Every day number from -32044 on is that of a date, which `get_ymd` finds. */
  lemma JulianOfYmd(jday: int)
    requires jday >= -32044
    ensures ValidDate(Ymd(jday)) && Julian(Ymd(jday)) == jday
  {
    var s := NumberOfYmd(jday + 32044);
    YmdOfNumber(s, jday);
    UnshiftValid(s);
    JulianIsNumber(Unshift(s));
  }

  // --- Order ---

  lemma {:induction false} YearStartGrows(x: nat, y: nat)
    requires x < y
    ensures YearStart(x) + YearLength(x) <= YearStart(y)
    decreases y
  {
    if x < y - 1 { YearStartGrows(x, y - 1); }
  }

  lemma MonthOrder(y: nat, m: nat, n: nat)
    requires m < n < 12
    ensures MonthStart(m) + ShiftedLength(y, m) <= MonthStart(n)
  {
  }

  lemma NumberOrder(s: Shifted, t: Shifted)
    requires ValidShifted(s) && ValidShifted(t)
    requires s.y < t.y || (s.y == t.y && (s.m < t.m || (s.m == t.m && s.k < t.k)))
    ensures Number(s) < Number(t)
  {
    if s.y < t.y {
      InYear(s);
      YearStartGrows(s.y, t.y);
    } else if s.m < t.m {
      MonthOrder(s.y, s.m, t.m);
    }
  }

  /** Earlier dates have smaller day numbers, and only they do. */
  lemma JulianOrder(c: Date, d: Date)
    requires ValidDate(c) && ValidDate(d)
    ensures Before(c, d) <==> Julian(c) < Julian(d)
  {
    ShiftValid(c);
    ShiftValid(d);
    JulianIsNumber(c);
    JulianIsNumber(d);
    if Before(c, d) {
      NumberOrder(Shift(c), Shift(d));
    } else if c != d {
      NumberOrder(Shift(d), Shift(c));
    }
  }

  function NextShifted(s: Shifted): Shifted {
    if s.k + 1 < ShiftedLength(s.y, s.m) then s.(k := s.k + 1)
    else if s.m < 11 then Shifted(s.y, s.m + 1, 0)
    else Shifted(s.y + 1, 0, 0)
  }

  lemma NumberNext(s: Shifted)
    requires ValidShifted(s)
    ensures Number(NextShifted(s)) == Number(s) + 1
  {
    MonthNext(s.y, s.m);
    assert YearStart(s.y + 1) == YearStart(s.y) + YearLength(s.y);
  }

  lemma ShiftNext(d: Date)
    requires ValidDate(d)
    ensures ValidDate(NextDay(d)) && Shift(NextDay(d)) == NextShifted(Shift(d))
  {
    LeapShift(d.year);
  }

  /** The next day of the calendar has the next day number. */
  lemma JulianNext(d: Date)
    requires ValidDate(d)
    ensures ValidDate(NextDay(d)) && Julian(NextDay(d)) == Julian(d) + 1
  {
    ShiftValid(d);
    ShiftNext(d);
    NumberNext(Shift(d));
    JulianIsNumber(d);
    JulianIsNumber(NextDay(d));
  }

  // --- The time of day ---

  const DAY: int := 86400000

  datatype Hms = Hms(hour: int, minute: int, second: int, millis: int)

  /** `make_hms`. */
  function MakeHms(t: Hms): int {
    1000 * (3600 * t.hour + 60 * t.minute + t.second) + t.millis
  }

  /** `get_hms`. */
  function GetHms(time: int): Hms {
    var ticks := Quot(time, 1000);
    Hms(Quot(ticks, 3600), Rem(Quot(ticks, 60), 60), Rem(ticks, 60), Rem(time, 1000))
  }

  lemma QuotQuot(a: int)
    ensures Quot(Quot(a, 60), 60) == Quot(a, 3600)
  {
  }

  /** Taking a time of day apart and putting it together again; in range, the parts are in range and unique. */
  lemma HmsRoundTrip(time: int)
    ensures MakeHms(GetHms(time)) == time
    ensures 0 <= time < DAY ==>
      var t := GetHms(time); 0 <= t.hour < 24 && 0 <= t.minute < 60 && 0 <= t.second < 60 && 0 <= t.millis < 1000
  {
    QuotQuot(Quot(time, 1000));
  }

  lemma HmsUnique(t: Hms)
    requires 0 <= t.hour && 0 <= t.minute < 60 && 0 <= t.second < 60 && 0 <= t.millis < 1000
    ensures GetHms(MakeHms(t)) == t
  {
    var ticks := 3600 * t.hour + 60 * t.minute + t.second;
    assert Quot(MakeHms(t), 1000) == ticks;
    assert Quot(ticks, 60) == 60 * t.hour + t.minute;
    assert Quot(ticks, 3600) == t.hour;
  }

  // --- Durations ---

  datatype Duration = Duration(years: int, months: int, days: int, hours: int, minutes: int, seconds: int)

  /** `max_day_in_month_for`. */
  function MaxDay(year: int, month: int): (n: int)
    ensures 28 <= n <= 31
  {
    var m := Rem(month - 1, 12) + 1;
    var y := year + Quot(m - 1, 12);
    if m == 1 || m == 3 || m == 5 || m == 7 || m == 8 || m == 10 || m == 12 then 31
    else if m == 4 || m == 6 || m == 9 || m == 11 then 30
    else if m == 2 && (Rem(y, 400) == 0 || (Rem(y, 100) != 0 && Rem(y, 4) == 0)) then 29
    else 28
  }

  lemma RemZero(a: int)
    ensures Rem(a, 400) == 0 <==> a % 400 == 0
    ensures Rem(a, 100) == 0 <==> a % 100 == 0
    ensures Rem(a, 4) == 0 <==> a % 4 == 0
  {
  }

  /** On real months the code's table is the calendar's. */
  lemma MaxDayIsMonthLength(year: int, month: int)
    requires 1 <= month <= 12
    ensures MaxDay(year, month) == MonthLength(year, month)
  {
    RemZero(year);
    assert Rem(month - 1, 12) + 1 == month && year + Quot(month - 1, 12) == year;
  }

  /** Months that truncation leaves at or below zero have 28 days in the code; -11 is a January again. */
  lemma MaxDayBelow(year: int, month: int)
    requires -11 <= month <= 0
    ensures MaxDay(year, month) == if month == -11 then 31 else 28
  {
    assert Rem(month - 1, 12) == if month == -11 then 0 else month - 1;
  }

  /** The month arithmetic of the code: `c` months on, with division that truncates. */
  function Step(y: int, m: int, c: int): (int, int) {
    (y + Quot(m + c - 1, 12), Rem(m + c - 1, 12) + 1)
  }

  /**
    The code's months against the calendar's, whose division rounds down: the same from month 1 of
    the start year on and on Januaries, and otherwise 12 months lower in the year after.
   */
  lemma MonthArithmetic(y: int, months: int)
    ensures var s := Step(y, months, 0);
      if months >= 1 || (months - 1) % 12 == 0 then s == (y + (months - 1) / 12, (months - 1) % 12 + 1)
      else s == (y + (months - 1) / 12 + 1, (months - 1) % 12 + 1 - 12)
    ensures -10 <= Step(y, months, 0).1 <= 12
  {
    var k := months - 1;
    if k < 0 { assert -k == 12 * ((-k) / 12) + (-k) % 12; }
  }

  lemma StepOne(y: int, m: int)
    requires -10 <= m <= 12
    ensures Step(y, m, 1) == if m == 12 then (y + 1, 1) else (y, m + 1)
    ensures Step(y, m, -1) == if m == -10 then (y - 1, 1) else (y, m - 1)
  {
  }

  /** The loop that carries days into months, for any day. */
  function Walk(y: int, m: int, d: int): (r: Date)
    requires -10 <= m <= 12
    ensures -10 <= r.month <= 12
    decreases if d < 1 then 1 else 0, if d < 1 then -d else d
  {
    StepOne(y, m);
    if d < 1 then Walk(Step(y, m, -1).0, Step(y, m, -1).1, d + MaxDay(y, m - 1))
    else if d > MaxDay(y, m) then Walk(Step(y, m, 1).0, Step(y, m, 1).1, d - MaxDay(y, m))
    else Date(y, m, d)
  }

  /** The loop of the source computes it. */
  method CarryDays(year: int, month: int, day: int) returns (r: Date)
    requires -10 <= month <= 12
    ensures r == Walk(year, month, day) && 1 <= r.day <= MaxDay(r.year, r.month)
  {
    var eYear, eMonth, eDay := year, month, day;
    while true
      invariant -10 <= eMonth <= 12 && Walk(eYear, eMonth, eDay) == Walk(year, month, day)
      decreases if eDay < 1 then 1 else 0, if eDay < 1 then -eDay else eDay
    {
      StepOne(eYear, eMonth);
      var next;
      if eDay < 1 {
        eDay, next := eDay + MaxDay(eYear, eMonth - 1), Step(eYear, eMonth, -1);
      } else if eDay > MaxDay(eYear, eMonth) {
        eDay, next := eDay - MaxDay(eYear, eMonth), Step(eYear, eMonth, 1);
      } else {
        break;
      }
      eYear, eMonth := next.0, next.1;
    }
    r := Date(eYear, eMonth, eDay);
  }

  // --- Day numbers of the first of each month, below zero too ---

  /** The day number of the first of a month. */
  type Firsts = (int, int) -> int

  /** The days that the month really has. */
  function TrueLength(y: int, m: int): int {
    if m >= 1 then MonthLength(y, m) else MonthLength(y - 1, m + 12)
  }

  function NextMonth(y: int, m: int): (int, int) {
    if m == 12 then (y + 1, 1) else (y, m + 1)
  }

  function PrevMonth(y: int, m: int): (int, int) {
    if m == -10 then (y - 1, 1) else (y, m - 1)
  }

  /** Months follow each other, and those at or below zero are months of the year before. */
  ghost predicate Calendar(f: Firsts) {
    && (forall y, m {:trigger TrueLength(y, m)} :: -10 <= m <= 12 && y >= -4798 ==>
          f(NextMonth(y, m).0, NextMonth(y, m).1) == f(y, m) + TrueLength(y, m))
    && (forall y, m {:trigger MonthLength(y - 1, m + 12)} :: -10 <= m <= 0 ==> f(y, m) == f(y - 1, m + 12))
  }

  lemma Follows(f: Firsts, y: int, m: int)
    requires Calendar(f) && -10 <= m <= 12 && y >= -4798
    ensures f(NextMonth(y, m).0, NextMonth(y, m).1) == f(y, m) + TrueLength(y, m)
  {
  }

  lemma Below(f: Firsts, y: int, m: int)
    requires Calendar(f) && -10 <= m <= 0
    ensures f(y, m) == f(y - 1, m + 12)
  {
    assert MonthLength(y - 1, m + 12) >= 28;
  }

  lemma Precedes(f: Firsts, y: int, m: int)
    requires Calendar(f) && -10 <= m <= 12 && y >= -4797
    ensures var p := PrevMonth(y, m); f(p.0, p.1) + TrueLength(p.0, p.1) == f(y, m)
  {
    if m == -10 {
      Follows(f, y - 1, 1);
      Below(f, y, m);
    } else {
      Follows(f, y, m - 1);
    }
  }

  /** The code's length of a month is at most the real one. */
  lemma CodeLength(y: int, m: int)
    requires -10 <= m <= 12
    ensures MaxDay(y, m) <= TrueLength(y, m)
    ensures m >= 1 ==> MaxDay(y, m) == TrueLength(y, m)
    ensures m <= 0 ==> MaxDay(y, m) == 28
  {
    if m >= 1 { MaxDayIsMonthLength(y, m); } else { MaxDayBelow(y, m); }
  }

  /** Going back, the code adds its length of the month before. */
  lemma BackLength(y: int, m: int)
    requires -10 <= m <= 12
    ensures MaxDay(y, m - 1) == MaxDay(PrevMonth(y, m).0, PrevMonth(y, m).1)
  {
    if m == -10 {
      MaxDayBelow(y, -11);
      MaxDayIsMonthLength(y - 1, 1);
    }
  }

  // --- Where the walk ends ---

  /** The day number of where the walk ends. */
  function End(f: Firsts, y: int, m: int, d: int): int
    requires -10 <= m <= 12
  {
    var r := Walk(y, m, d);
    f(r.year, r.month) + r.day - 1
  }

  lemma EndStays(f: Firsts, y: int, m: int, d: int)
    requires -10 <= m <= 12 && 1 <= d <= MaxDay(y, m)
    ensures End(f, y, m, d) == f(y, m) + d - 1
  {
  }

  lemma EndOn(f: Firsts, y: int, m: int, d: int)
    requires -10 <= m <= 12 && d > MaxDay(y, m)
    ensures End(f, y, m, d) == End(f, NextMonth(y, m).0, NextMonth(y, m).1, d - MaxDay(y, m))
  {
    StepOne(y, m);
  }

  lemma EndBack(f: Firsts, y: int, m: int, d: int)
    requires -10 <= m <= 12 && d < 1
    ensures End(f, y, m, d) == End(f, PrevMonth(y, m).0, PrevMonth(y, m).1, d + MaxDay(y, m - 1))
  {
    StepOne(y, m);
  }

  /** From a real month forward the walk is right. */
  lemma {:induction false} WalkForward(f: Firsts, y: int, m: int, d: int)
    requires Calendar(f) && 1 <= m <= 12 && d >= 1 && y >= -4798
    ensures End(f, y, m, d) == f(y, m) + d - 1
    decreases d
  {
    CodeLength(y, m);
    if d <= MaxDay(y, m) {
      EndStays(f, y, m, d);
    } else {
      EndOn(f, y, m, d);
      Follows(f, y, m);
      WalkForward(f, NextMonth(y, m).0, NextMonth(y, m).1, d - MaxDay(y, m));
    }
  }

  /** From a month at or below zero forward the walk never falls short. */
  lemma {:induction false} WalkBelowForward(f: Firsts, y: int, m: int, d: int)
    requires Calendar(f) && -10 <= m <= 0 && d >= 1 && y >= -4797
    ensures End(f, y, m, d) >= f(y, m) + d - 1 + if d > 28 then TrueLength(y, m) - 28 else 0
    decreases d
  {
    CodeLength(y, m);
    if d <= 28 {
      EndStays(f, y, m, d);
    } else {
      EndOn(f, y, m, d);
      Follows(f, y, m);
      if m == 0 { WalkForward(f, y, 1, d - 28); } else { WalkBelowForward(f, y, m + 1, d - 28); }
    }
  }

  /** There is room in the calendar to walk back that far in months of 28 days. */
  predicate Room(y: int, m: int, d: int) {
    y >= -4797 && d + 28 * (12 * (y + 4797) + (m + 10)) >= 1
  }

  lemma RoomBack(y: int, m: int, d: int)
    requires -10 <= m <= 12 && Room(y, m, d) && d < 1
    ensures Room(PrevMonth(y, m).0, PrevMonth(y, m).1, d + MaxDay(y, m - 1))
  {
  }

  /** How much the code's step into the month before falls short of that month. */
  function Short(y: int, m: int): int {
    TrueLength(PrevMonth(y, m).0, PrevMonth(y, m).1) - MaxDay(y, m - 1)
  }

  lemma ShortIs(y: int, m: int)
    requires -10 <= m <= 12
    ensures Short(y, m) >= 0
    ensures m >= 2 || m == -10 ==> Short(y, m) == 0
    ensures m == -9 ==> Short(y, m) == if Leap(y - 1) then 1 else 0
    ensures -8 <= m <= 1 ==> Short(y, m) >= 2
  {
    BackLength(y, m);
    CodeLength(PrevMonth(y, m).0, PrevMonth(y, m).1);
  }

  /** One step back. */
  lemma StepBack(f: Firsts, y: int, m: int, d: int)
    requires Calendar(f) && -10 <= m <= 12 && d < 1 && Room(y, m, d)
    ensures var p, d' := PrevMonth(y, m), d + MaxDay(y, m - 1);
      && Room(p.0, p.1, d') && End(f, y, m, d) == End(f, p.0, p.1, d')
      && f(p.0, p.1) + d' == f(y, m) + d - Short(y, m)
      && (d' >= 1 ==> End(f, y, m, d) == f(p.0, p.1) + d' - 1)
  {
    var p, d' := PrevMonth(y, m), d + MaxDay(y, m - 1);
    EndBack(f, y, m, d);
    Precedes(f, y, m);
    RoomBack(y, m, d);
    if d' >= 1 {
      BackLength(y, m);
      EndStays(f, p.0, p.1, d');
    }
  }

  /** Back, the walk ends too early by at least what its first step falls short. */
  lemma {:induction false} WalkBack(f: Firsts, y: int, m: int, d: int)
    requires Calendar(f) && -10 <= m <= 12 && d < 1 && Room(y, m, d)
    ensures End(f, y, m, d) <= f(y, m) + d - 1 - Short(y, m)
    decreases -d
  {
    var p, d' := PrevMonth(y, m), d + MaxDay(y, m - 1);
    StepBack(f, y, m, d);
    if d' < 1 {
      WalkBack(f, p.0, p.1, d');
      ShortIs(p.0, p.1);
    }
  }

  /** The first of the year of a real month is not after the first of the month. */
  lemma {:induction false} JanuaryFirst(f: Firsts, y: int, m: int)
    requires Calendar(f) && 1 <= m <= 12 && y >= -4797
    ensures f(y, 1) <= f(y, m)
  {
    if m > 1 {
      JanuaryFirst(f, y, m - 1);
      Follows(f, y, m - 1);
    }
  }

  /** Back from a real month the walk is right if and only if it stays in the year. */
  lemma {:induction false} WalkInYear(f: Firsts, y: int, m: int, d: int)
    requires Calendar(f) && 1 <= m <= 12 && d < 1 && Room(y, m, d)
    ensures End(f, y, m, d) == f(y, m) + d - 1 <==> f(y, m) + d - 1 >= f(y, 1)
    decreases -d
  {
    ShortIs(y, m);
    if m == 1 {
      WalkBack(f, y, m, d);
    } else {
      StepBack(f, y, m, d);
      JanuaryFirst(f, y, m - 1);
      if d + MaxDay(y, m - 1) < 1 { WalkInYear(f, y, m - 1, d + MaxDay(y, m - 1)); }
    }
  }

  lemma RealWalk(f: Firsts, y: int, m: int, k: int)
    requires Calendar(f) && 1 <= m <= 12 && Room(y, m, k)
    ensures End(f, y, m, k) == f(y, m) + k - 1 <==> f(y, m) + k - 1 >= f(y, 1)
  {
    if k >= 1 {
      WalkForward(f, y, m, k);
      JanuaryFirst(f, y, m);
    } else {
      WalkInYear(f, y, m, k);
    }
  }

  /** Forward from a month of 28 days: one step makes up for its length, a second overshoots. */
  lemma BelowForward(f: Firsts, y: int, m: int, k: int)
    requires Calendar(f) && -10 <= m <= 0 && k > 28 && y >= -4797
    ensures m == 0 || k <= 56 ==> End(f, y, m, k) == f(y, m) + k - 1 + TrueLength(y, m) - 28
    ensures m < 0 && k > 56 ==> End(f, y, m, k) > f(y, m) + k - 1 + TrueLength(y, m) - 28
  {
    CodeLength(y, m);
    EndOn(f, y, m, k);
    Follows(f, y, m);
    if m == 0 {
      WalkForward(f, y, 1, k - 28);
    } else if k <= 56 {
      CodeLength(y, m + 1);
      EndStays(f, y, m + 1, k - 28);
    } else {
      WalkBelowForward(f, y, m + 1, k - 28);
    }
  }

  /** Back from February, which the code has as month -10: into January, and right if it stops there. */
  lemma BackToJanuary(f: Firsts, y: int, k: int)
    requires Calendar(f) && k < 1 && Room(y, -10, k)
    ensures f(y, -10) == f(y - 1, 1) + 31
    ensures End(f, y, -10, k) == f(y, -10) + k - 1 <==> k + 31 >= 1
  {
    StepBack(f, y, -10, k);
    ShortIs(y, -10);
    MaxDayBelow(y, -11);
    if k + 31 < 1 { WalkInYear(f, y - 1, 1, k + 31); }
  }

  /** Back from March, month -9, in a common year: through February. */
  lemma BackToFebruary(f: Firsts, y: int, k: int)
    requires Calendar(f) && k < 1 && Room(y, -9, k) && !Leap(y - 1)
    ensures f(y, -9) == f(y - 1, 1) + 59
    ensures End(f, y, -9, k) == f(y, -9) + k - 1 <==> k + 59 >= 1
  {
    StepBack(f, y, -9, k);
    ShortIs(y, -9);
    MaxDayBelow(y, -10);
    Precedes(f, y, -10);
    if k + 28 < 1 { BackToJanuary(f, y, k + 28); }
  }

  /** Back from there: right if and only if the way leads through a February of 28 days, or to January, and stops in the year. */
  lemma BelowBack(f: Firsts, y: int, m: int, k: int)
    requires Calendar(f) && -10 <= m <= 0 && k < 1 && Room(y, m, k)
    ensures End(f, y, m, k) <= f(y, m) + k - 1
    ensures End(f, y, m, k) == f(y, m) + k - 1 <==>
      (m == -10 || (m == -9 && !Leap(y - 1))) && f(y, m) + k - 1 >= f(y - 1, 1)
  {
    WalkBack(f, y, m, k);
    ShortIs(y, m);
    if m == -10 {
      BackToJanuary(f, y, k);
    } else if m == -9 && !Leap(y - 1) {
      BackToFebruary(f, y, k);
    }
  }

  // --- Adding a duration ---

  /** Appendix E: the start date with years and months added, and the day pulled back into the month. */
  function MonthsAdded(d: Date, dur: Duration): Date {
    var m := d.month + dur.months - 1;
    var year, month := d.year + dur.years + m / 12, m % 12 + 1;
    Date(year, month, if d.day > MonthLength(year, month) then MonthLength(year, month) else d.day)
  }

  /** The month of the code. */
  function CodeMonth(d: Date, dur: Duration): (r: (int, int))
    ensures -10 <= r.1 <= 12
  {
    MonthArithmetic(d.year + dur.years, d.month + dur.months);
    Step(d.year + dur.years, d.month + dur.months, 0)
  }

  /** The day of the code, before days are added. */
  function CodeDay(d: Date, dur: Duration): int {
    var max := MaxDay(CodeMonth(d, dur).0, CodeMonth(d, dur).1);
    if d.day > max then max else if d.day < 1 then 1 else d.day
  }

  /** The walk stays in the calendar. */
  predicate InCalendar(d: Date, dur: Duration, days: int) {
    ValidDate(d) && Room(CodeMonth(d, dur).0, CodeMonth(d, dur).1, CodeDay(d, dur) + days)
  }

  /** The months come out as a real month: the sum is at least 1, or falls on a January. */
  predicate RealMonth(d: Date, dur: Duration) {
    d.month + dur.months >= 1 || MonthsAdded(d, dur).month == 1
  }

  /**
    When the stored day is that of Appendix E, `first` being January 1 of the year and `day` the day
    to be stored.  From a real month: the days added do not lead back over January 1.  Otherwise the
    code takes the month to have 28 days: nothing is carried and that does not matter; or the carry
    just makes up for it, and there is no second such month; or the way back leads through February
    of a common year or straight to January, and no further.
   */
  predicate RightAt(d: Date, dur: Duration, days: int, first: int, day: int) {
    var e := MonthsAdded(d, dur);
    var length, c := MonthLength(e.year, e.month), if d.day > 28 then 28 else d.day;
    if RealMonth(d, dur) then day >= first
    else if c + days > 28 then (length == 28 || d.day >= length) && (e.month == 12 || c + days <= 56)
    else if c + days >= 1 then d.day <= 28 || length == 28
    else (d.day <= 28 || length == 28) && (e.month == 2 || (e.month == 3 && !Leap(e.year))) && day >= first
  }

  /** The code's month and day, when truncation does no harm. */
  lemma RealMonthIs(d: Date, dur: Duration)
    requires ValidDate(d) && RealMonth(d, dur)
    ensures var e := MonthsAdded(d, dur);
      CodeMonth(d, dur) == (e.year, e.month) && CodeDay(d, dur) == e.day && 1 <= e.month <= 12
  {
    var e := MonthsAdded(d, dur);
    MonthArithmetic(d.year + dur.years, d.month + dur.months);
    MaxDayIsMonthLength(e.year, e.month);
  }

  /** And when it leaves the month at or below zero. */
  lemma BelowMonthIs(d: Date, dur: Duration)
    requires ValidDate(d) && !RealMonth(d, dur)
    ensures var e := MonthsAdded(d, dur);
      CodeMonth(d, dur) == (e.year + 1, e.month - 12) && 2 <= e.month <= 12
      && CodeDay(d, dur) == if d.day > 28 then 28 else d.day
  {
    var cm := CodeMonth(d, dur);
    MonthArithmetic(d.year + dur.years, d.month + dur.months);
    MaxDayBelow(cm.0, cm.1);
  }

  lemma BelowExact(f: Firsts, d: Date, dur: Duration, days: int)
    requires Calendar(f) && InCalendar(d, dur, days) && !RealMonth(d, dur)
    ensures var e, cm := MonthsAdded(d, dur), CodeMonth(d, dur);
      var day := f(e.year, e.month) + e.day - 1 + days;
      End(f, cm.0, cm.1, CodeDay(d, dur) + days) == day <==> RightAt(d, dur, days, f(e.year, 1), day)
  {
    var e := MonthsAdded(d, dur);
    var y, m, k := e.year + 1, e.month - 12, CodeDay(d, dur) + days;
    BelowMonthIs(d, dur);
    Below(f, y, m);
    assert TrueLength(y, m) == MonthLength(e.year, e.month);
    if k > 28 {
      BelowForward(f, y, m, k);
    } else if k >= 1 {
      CodeLength(y, m);
      EndStays(f, y, m, k);
    } else {
      BelowBack(f, y, m, k);
    }
  }

  lemma RealExact(f: Firsts, d: Date, dur: Duration, days: int)
    requires Calendar(f) && InCalendar(d, dur, days) && RealMonth(d, dur)
    ensures var e, cm := MonthsAdded(d, dur), CodeMonth(d, dur);
      var day := f(e.year, e.month) + e.day - 1 + days;
      End(f, cm.0, cm.1, CodeDay(d, dur) + days) == day <==> RightAt(d, dur, days, f(e.year, 1), day)
  {
    var e := MonthsAdded(d, dur);
    RealMonthIs(d, dur);
    RealWalk(f, e.year, e.month, e.day + days);
  }

  // --- With the day numbers of `julian_date` ---

  function First(y: int, m: int): int {
    JulianDate(y, m, 1)
  }

  lemma DayLinear(year: int, month: int, day: int)
    ensures JulianDate(year, month, day) == First(year, month) + day - 1
  {
  }

  /** `julian_date` takes months at or below zero for those of the year before. */
  lemma BelowZero(y: int, m: int)
    requires -10 <= m <= 0
    ensures First(y, m) == First(y - 1, m + 12)
  {
    assert Quot(14 - m, 12) == if m == -10 then 2 else 1;
    assert Quot(14 - (m + 12), 12) == if m == -10 then 1 else 0;
  }

  lemma RealFollows(year: int, month: int)
    requires ValidDate(Date(year, month, 1))
    ensures First(NextMonth(year, month).0, NextMonth(year, month).1) == First(year, month) + MonthLength(year, month)
  {
    JulianNext(Date(year, month, MonthLength(year, month)));
    DayLinear(year, month, MonthLength(year, month));
  }

  lemma MonthFollows(y: int, m: int)
    requires -10 <= m <= 12 && y >= -4798
    ensures First(NextMonth(y, m).0, NextMonth(y, m).1) == First(y, m) + TrueLength(y, m)
  {
    if m >= 1 {
      RealFollows(y, m);
    } else {
      BelowZero(y, m);
      RealFollows(y - 1, m + 12);
      if m < 0 { BelowZero(y, m + 1); }
    }
  }

  ghost const Julians: Firsts := (y: int, m: int) => First(y, m)

  lemma JuliansAreCalendar()
    ensures Calendar(Julians)
  {
    forall y, m | -10 <= m <= 12 && y >= -4798
      ensures Julians(NextMonth(y, m).0, NextMonth(y, m).1) == Julians(y, m) + TrueLength(y, m)
    {
      MonthFollows(y, m);
    }
    forall y, m | -10 <= m <= 0 ensures Julians(y, m) == Julians(y - 1, m + 12) {
      BelowZero(y, m);
    }
  }

  /** The day number that is stored, when `days` are added to the months. */
  function StoredDay(d: Date, dur: Duration, days: int): int {
    Julian(Walk(CodeMonth(d, dur).0, CodeMonth(d, dur).1, CodeDay(d, dur) + days))
  }

  predicate DayRight(d: Date, dur: Duration, days: int) {
    var e := MonthsAdded(d, dur);
    RightAt(d, dur, days, First(e.year, 1), Julian(e) + days)
  }

  lemma StoredIsEnd(d: Date, dur: Duration, days: int)
    ensures StoredDay(d, dur, days) == End(Julians, CodeMonth(d, dur).0, CodeMonth(d, dur).1, CodeDay(d, dur) + days)
  {
    var r := Walk(CodeMonth(d, dur).0, CodeMonth(d, dur).1, CodeDay(d, dur) + days);
    DayLinear(r.year, r.month, r.day);
  }

  /** Exactly when the stored day is the start's month-shifted, clamped day plus the days. */
  lemma DayExact(d: Date, dur: Duration, days: int)
    requires InCalendar(d, dur, days)
    ensures StoredDay(d, dur, days) == Julian(MonthsAdded(d, dur)) + days <==> DayRight(d, dur, days)
  {
    var e := MonthsAdded(d, dur);
    JuliansAreCalendar();
    StoredIsEnd(d, dur, days);
    DayLinear(e.year, e.month, e.day);
    if RealMonth(d, dur) { RealExact(Julians, d, dur, days); } else { BelowExact(Julians, d, dur, days); }
  }

  lemma NotBeforeJanuary(e: Date)
    requires 1 <= e.month <= 12 && e.day >= 1 && e.year >= -4797
    ensures Julian(e) >= First(e.year, 1)
  {
    JuliansAreCalendar();
    JanuaryFirst(Julians, e.year, e.month);
    DayLinear(e.year, e.month, e.day);
  }

  /** Years and months only: right from a real month, up to the 28th, and for months of 28 days. */
  lemma MonthsOnlyExact(d: Date, dur: Duration)
    requires InCalendar(d, dur, 0)
    ensures StoredDay(d, dur, 0) == Julian(MonthsAdded(d, dur)) <==>
      RealMonth(d, dur) || d.day <= 28 || MonthLength(MonthsAdded(d, dur).year, MonthsAdded(d, dur).month) == 28
  {
    DayExact(d, dur, 0);
    if RealMonth(d, dur) {
      RealMonthIs(d, dur);
      NotBeforeJanuary(MonthsAdded(d, dur));
    }
  }

  // --- The clock ---

  /** The carries from seconds to days; milliseconds start again at zero. */
  function CodeClock(t: Hms, dur: Duration): (Hms, int) {
    var s := t.second + dur.seconds;
    var m := t.minute + dur.minutes + Quot(s, 60);
    var h := t.hour + dur.hours + Quot(m, 60);
    (Hms(Rem(h, 24), Rem(m, 60), Rem(s, 60), 0), Quot(h, 24))
  }

  /** The sums of seconds, minutes and hours, each with what the one before carries. */
  function SecondSum(time: int, dur: Duration): int {
    GetHms(time).second + dur.seconds
  }

  function MinuteSum(time: int, dur: Duration): int {
    GetHms(time).minute + dur.minutes + Quot(SecondSum(time, dur), 60)
  }

  function HourSum(time: int, dur: Duration): int {
    GetHms(time).hour + dur.hours + Quot(MinuteSum(time, dur), 60)
  }

  /** Of what the sums leave in hours, minutes and seconds, the first that is not zero is positive. */
  predicate ClockRight(time: int, dur: Duration) {
    var h, m, s := Rem(HourSum(time, dur), 24), Rem(MinuteSum(time, dur), 60), Rem(SecondSum(time, dur), 60);
    h > 0 || (h == 0 && (m > 0 || (m == 0 && s >= 0)))
  }

  /** The seconds of the day with the duration's hours, minutes and seconds. */
  function SecondsAdded(time: int, dur: Duration): int {
    Quot(time, 1000) + 3600 * dur.hours + 60 * dur.minutes + dur.seconds
  }

  /** The seconds of a time of day. */
  function Seconds(t: Hms): int {
    3600 * t.hour + 60 * t.minute + t.second
  }

  lemma QuotRem(a: int, b: int)
    requires b > 0
    ensures a == b * Quot(a, b) + Rem(a, b)
  {
  }

  lemma RemRange(a: int)
    ensures -60 < Rem(a, 60) < 60 && -24 < Rem(a, 24) < 24
  {
  }

  /** The clock loses nothing but milliseconds. */
  lemma ClockConserves(t: Hms, dur: Duration)
    ensures var r := CodeClock(t, dur);
      && Seconds(r.0) + 86400 * r.1 == Seconds(t) + 3600 * dur.hours + 60 * dur.minutes + dur.seconds
      && -86400 < Seconds(r.0) < 86400 && MakeHms(r.0) == 1000 * Seconds(r.0)
  {
    var s := t.second + dur.seconds;
    var m := t.minute + dur.minutes + Quot(s, 60);
    var h := t.hour + dur.hours + Quot(m, 60);
    QuotRem(s, 60);
    QuotRem(m, 60);
    QuotRem(h, 24);
    RemRange(s);
    RemRange(m);
    RemRange(h);
  }

  lemma TicksAre(time: int)
    ensures Seconds(GetHms(time)) == Quot(time, 1000)
  {
    var ticks := Quot(time, 1000);
    QuotQuot(ticks);
    QuotRem(ticks, 60);
    QuotRem(Quot(ticks, 60), 60);
  }

  lemma FloorDay(s: int, c: int)
    requires -86400 < s < 86400
    ensures (s + 86400 * c) % 86400 == s <==> s >= 0
    ensures s >= 0 ==> (s + 86400 * c) / 86400 == c
  {
  }

  lemma LeadingSign(h: int, m: int, s: int)
    requires -24 < h < 24 && -60 < m < 60 && -60 < s < 60
    ensures 3600 * h + 60 * m + s >= 0 <==> h > 0 || (h == 0 && (m > 0 || (m == 0 && s >= 0)))
  {
  }

  lemma ClockOf(t: Hms, dur: Duration, s: int, m: int, h: int)
    requires s == t.second + dur.seconds && m == t.minute + dur.minutes + Quot(s, 60) && h == t.hour + dur.hours + Quot(m, 60)
    ensures CodeClock(t, dur) == (Hms(Rem(h, 24), Rem(m, 60), Rem(s, 60), 0), Quot(h, 24))
  {
  }

  lemma ClockSignAt(t: Hms, dur: Duration, s: int, m: int, h: int)
    requires s == t.second + dur.seconds && m == t.minute + dur.minutes + Quot(s, 60) && h == t.hour + dur.hours + Quot(m, 60)
    ensures MakeHms(CodeClock(t, dur).0) >= 0 <==>
      Rem(h, 24) > 0 || (Rem(h, 24) == 0 && (Rem(m, 60) > 0 || (Rem(m, 60) == 0 && Rem(s, 60) >= 0)))
  {
    ClockOf(t, dur, s, m, h);
    RemRange(h);
    RemRange(m);
    RemRange(s);
    LeadingSign(Rem(h, 24), Rem(m, 60), Rem(s, 60));
  }

  lemma ClockSign(time: int, dur: Duration)
    ensures MakeHms(CodeClock(GetHms(time), dur).0) >= 0 <==> ClockRight(time, dur)
  {
    ClockSignAt(GetHms(time), dur, SecondSum(time, dur), MinuteSum(time, dur), HourSum(time, dur));
  }

  /** The clock is that of Appendix E if and only if the sums leave nothing negative in front; so is the carry then. */
  lemma ClockExact(time: int, dur: Duration)
    ensures var r, total := CodeClock(GetHms(time), dur), SecondsAdded(time, dur);
      && (MakeHms(r.0) == 1000 * (total % 86400) <==> ClockRight(time, dur))
      && (ClockRight(time, dur) ==> r.1 == total / 86400)
  {
    ClockConserves(GetHms(time), dur);
    TicksAre(time);
    FloorClock(CodeClock(GetHms(time), dur), SecondsAdded(time, dur));
    ClockSign(time, dur);
  }

  lemma FloorClock(r: (Hms, int), total: int)
    requires Seconds(r.0) + 86400 * r.1 == total && -86400 < Seconds(r.0) < 86400 && MakeHms(r.0) == 1000 * Seconds(r.0)
    ensures MakeHms(r.0) == 1000 * (total % 86400) <==> MakeHms(r.0) >= 0
    ensures MakeHms(r.0) >= 0 ==> r.1 == total / 86400
  {
    FloorDay(Seconds(r.0), r.1);
  }

  /** What Appendix E of W3C XML Schema Part 2 says, for whole seconds. */
  function TrueDay(date: int, time: int, dur: Duration): int {
    Julian(MonthsAdded(Ymd(date), dur)) + dur.days + SecondsAdded(time, dur) / 86400
  }

  function TrueTime(time: int, dur: Duration): int {
    1000 * (SecondsAdded(time, dur) % 86400)
  }

  class DateTime {
    var date: int
    var time: int

    /** Milliseconds since day number 0. */
    ghost function Instant(): int
      reads this
    {
      DAY * date + time
    }

    constructor (date: int, time: int)
      ensures this.date == date && this.time == time
    {
      this.date, this.time := date, time;
    }

    /** `operator+=`: the instant moves by exactly the seconds, unless the time was two days off. */
    method AddSeconds(seconds: int)
      modifies this
      ensures Instant() == old(Instant()) + 1000 * seconds <==> old(time) + 1000 * Rem(seconds, 86400) < 2 * DAY
      ensures 0 <= old(time) <= DAY ==> Instant() == old(Instant()) + 1000 * seconds && 0 <= time <= DAY
      ensures 0 <= old(time) <= DAY ==> (time == DAY <==> old(time) + 1000 * Rem(seconds, 86400) == DAY)
    {
      var d := Quot(seconds, 86400);
      var s := Rem(seconds, 86400);
      date := date + d;
      time := time + s * 1000;
      ghost var t := time;
      if time > DAY {
        date := date + 1;
        time := Rem(time, DAY);
        assert t < 2 * DAY <==> Rem(t, DAY) == t - DAY;
      } else if time < 0 {
        date := date - 1;
        time := time + DAY;
      }
    }

    /** `add_duration_date_time`, for every duration: what is stored. */
    method AddDuration(dur: Duration)
      modifies this
      ensures var clock := CodeClock(GetHms(old(time)), dur);
        date == StoredDay(Ymd(old(date)), dur, dur.days + clock.1) && time == MakeHms(clock.0)
    {
      var start, t := Ymd(date), GetHms(time);
      var eYear, eMonth, tmpDay := AddMonths(start, dur);
      var clock, carry := AddClock(t, dur);
      var r := CarryDays(eYear, eMonth, tmpDay + dur.days + carry);
      date := JulianDate(r.year, r.month, r.day);
      time := MakeHms(clock);
    }
  }

  method AddMonths(start: Date, dur: Duration) returns (eYear: int, eMonth: int, tmpDay: int)
    ensures (eYear, eMonth) == CodeMonth(start, dur) && tmpDay == CodeDay(start, dur) && -10 <= eMonth <= 12
  {
    var tmpMonth := start.month + dur.months;
    MonthArithmetic(start.year + dur.years, tmpMonth);
    eMonth := Rem(tmpMonth - 1, 12) + 1;
    eYear := start.year + dur.years + Quot(tmpMonth - 1, 12);
    if start.day > MaxDay(eYear, eMonth) {
      tmpDay := MaxDay(eYear, eMonth);
    } else if start.day < 1 {
      tmpDay := 1;
    } else {
      tmpDay := start.day;
    }
  }

  method AddClock(t: Hms, dur: Duration) returns (r: Hms, carry: int)
    ensures (r, carry) == CodeClock(t, dur)
  {
    var tmpSec := t.second + dur.seconds;
    var eSec, carrySec := Rem(tmpSec, 60), Quot(tmpSec, 60);
    var tmpMin := t.minute + dur.minutes + carrySec;
    var eMin, carryMin := Rem(tmpMin, 60), Quot(tmpMin, 60);
    var tmpHour := t.hour + dur.hours + carryMin;
    r, carry := Hms(Rem(tmpHour, 24), eMin, eSec, 0), Quot(tmpHour, 24);
  }

  /**
    Exactly when date and time are stored as Appendix E says, for whole seconds: the clock is right, and
    so is the day with the days of the duration and of the whole clock.
   */
  lemma DurationExact(date: int, time: int, dur: Duration)
    requires InCalendar(Ymd(date), dur, dur.days + SecondsAdded(time, dur) / 86400)
    ensures var clock := CodeClock(GetHms(time), dur);
      && StoredDay(Ymd(date), dur, dur.days + clock.1) == TrueDay(date, time, dur)
      && MakeHms(clock.0) == TrueTime(time, dur)
      <==> ClockRight(time, dur) && DayRight(Ymd(date), dur, dur.days + SecondsAdded(time, dur) / 86400)
  {
    DurationExactAt(Ymd(date), time, dur, CodeClock(GetHms(time), dur), SecondsAdded(time, dur) / 86400);
  }

  lemma DurationExactAt(d: Date, time: int, dur: Duration, clock: (Hms, int), carry: int)
    requires clock == CodeClock(GetHms(time), dur) && carry == SecondsAdded(time, dur) / 86400 && InCalendar(d, dur, dur.days + carry)
    ensures
      && StoredDay(d, dur, dur.days + clock.1) == Julian(MonthsAdded(d, dur)) + dur.days + carry
      && MakeHms(clock.0) == TrueTime(time, dur)
      <==> ClockRight(time, dur) && DayRight(d, dur, dur.days + carry)
  {
    ClockExact(time, dur);
    if ClockRight(time, dur) { DayExact(d, dur, dur.days + carry); }
  }

  /** Every duration without negative parts is added right, from every date and time of day. */
  lemma NonNegativeIsRight(date: int, time: int, dur: Duration)
    requires date >= -32044 && 0 <= time <= DAY && Ymd(date).year + dur.years >= -4797
    requires dur.years >= 0 && dur.months >= 0 && dur.days >= 0 && dur.hours >= 0 && dur.minutes >= 0 && dur.seconds >= 0
    ensures var clock := CodeClock(GetHms(time), dur);
      StoredDay(Ymd(date), dur, dur.days + clock.1) == TrueDay(date, time, dur) && MakeHms(clock.0) == TrueTime(time, dur)
  {
    JulianOfYmd(date);
    ClockForward(time, dur);
    ForwardIsRight(Ymd(date), dur, dur.days + SecondsAdded(time, dur) / 86400);
    DurationExact(date, time, dur);
  }

  lemma ForwardIsRight(d: Date, dur: Duration, days: int)
    requires ValidDate(d) && d.year + dur.years >= -4797 && dur.months >= 0 && days >= 0
    ensures InCalendar(d, dur, days) && DayRight(d, dur, days)
  {
    MonthArithmetic(d.year + dur.years, d.month + dur.months);
    RealMonthIs(d, dur);
    NotBeforeJanuary(MonthsAdded(d, dur));
  }

  lemma ClockForward(time: int, dur: Duration)
    requires time >= 0 && dur.hours >= 0 && dur.minutes >= 0 && dur.seconds >= 0
    ensures ClockRight(time, dur) && SecondsAdded(time, dur) >= 0
  {
    var t := GetHms(time);
    assert t.hour >= 0 && t.minute >= 0 && t.second >= 0;
  }

  lemma QuotSmall(a: int, b: int)
    requires b > 0 && -b < a < b
    ensures Quot(a, b) == 0 && Rem(a, b) == a
  {
  }

  lemma SmallSums(s: int, m: int, h: int)
    requires -60 < s < 60 && m == Quot(s, 60) && h == Quot(m, 60)
    ensures m == 0 && h == 0 && Rem(s, 60) == s && Rem(m, 60) == 0 && Rem(h, 24) == 0 && Quot(h, 24) == 0
  {
    QuotSmall(s, 60);
    assert m == 0;
    QuotSmall(m, 60);
    assert h == 0;
    QuotSmall(h, 24);
  }

  /** Some seconds less than the first minute of the day has: a negative clock, and no day carried. */
  lemma ShortClock(t: Hms, dur: Duration, s: int)
    requires t.hour == 0 && t.minute == 0 && s == t.second + dur.seconds && -60 < s < 0
    requires dur.hours == 0 && dur.minutes == 0
    ensures CodeClock(t, dur) == (Hms(0, 0, s, 0), 0)
  {
    var m := Quot(s, 60);
    var h := Quot(m, 60);
    ClockOf(t, dur, s, m, h);
    SmallSums(s, m, h);
  }

  lemma FloorSmall(s: int)
    requires -60 < s < 0
    ensures s % 86400 == 86400 + s && s / 86400 == -1
  {
  }

  lemma SecondsOf(time: int, t: Hms, dur: Duration)
    requires GetHms(time) == t && dur.hours == 0 && dur.minutes == 0
    ensures SecondsAdded(time, dur) == 3600 * t.hour + 60 * t.minute + t.second + dur.seconds
  {
    TicksAre(time);
  }

  lemma FirstMinute(time: int, t: Hms)
    requires 0 <= time < 60000 && t == GetHms(time)
    ensures t.hour == 0 && t.minute == 0 && 0 <= t.second < 60
  {
    HmsRoundTrip(time);
  }

  lemma BeforeMidnightAt(time: int, t: Hms, dur: Duration, s: int, total: int)
    requires t.hour == 0 && t.minute == 0 && s == t.second + dur.seconds && -60 < s < 0
    requires dur.hours == 0 && dur.minutes == 0
    requires GetHms(time) == t && total == SecondsAdded(time, dur)
    ensures MakeHms(CodeClock(t, dur).0) == 1000 * s && CodeClock(t, dur).1 == 0
    ensures total % 86400 == 86400 + s && total / 86400 == -1
  {
    ShortClock(t, dur, s);
    SecondsOf(time, t, dur);
    FloorSmall(s);
  }

  /**
    From the first minute of a day back over midnight: the clock is stored as a negative number with
    no day carried, instead of the last minute of the day before.
   */
  lemma BeforeMidnight(time: int, dur: Duration, s: int)
    requires 0 <= time < 60000 && dur.hours == 0 && dur.minutes == 0 && s == GetHms(time).second + dur.seconds && -60 < s < 0
    ensures var clock := CodeClock(GetHms(time), dur); MakeHms(clock.0) == 1000 * s && clock.1 == 0
    ensures var total := SecondsAdded(time, dur); total % 86400 == 86400 + s && total / 86400 == -1
  {
    FirstMinute(time, GetHms(time));
    BeforeMidnightAt(time, GetHms(time), dur, s, SecondsAdded(time, dur));
  }

  /** Months that lead to the December before: the month stays at 0 and the day is cut at 28. */
  lemma LessMonths(d: Date, months: int)
    requires ValidDate(d) && d.month + months == 0
    ensures var dur := Duration(0, months, 0, 0, 0, 0);
      && CodeMonth(d, dur) == (d.year, 0) && MonthsAdded(d, dur) == Date(d.year - 1, 12, d.day)
      && CodeDay(d, dur) == if d.day > 28 then 28 else d.day
  {
    var dur := Duration(0, months, 0, 0, 0, 0);
    MonthArithmetic(d.year, 0);
    MaxDayBelow(d.year, 0);
  }

  lemma LessMonthsEnd(d: Date, months: int)
    requires ValidDate(d) && d.month + months == 0
    ensures var dur := Duration(0, months, 0, 0, 0, 0);
      End(Julians, CodeMonth(d, dur).0, CodeMonth(d, dur).1, CodeDay(d, dur)) == Julians(d.year - 1, 12) + CodeDay(d, dur) - 1
  {
    LessMonths(d, months);
    CodeLength(d.year, 0);
    EndStays(Julians, d.year, 0, CodeDay(d, Duration(0, months, 0, 0, 0, 0)));
    JuliansAreCalendar();
    Below(Julians, d.year, 0);
  }

  /** A day after the 28th is lost, and nothing else. */
  lemma LessMonthsDay(d: Date, months: int)
    requires ValidDate(d) && d.month + months == 0
    ensures var dur := Duration(0, months, 0, 0, 0, 0);
      StoredDay(d, dur, 0) == Julian(MonthsAdded(d, dur)) - (if d.day > 28 then d.day - 28 else 0)
  {
    LessMonths(d, months);
    LessMonthsEnd(d, months);
    StoredIsEnd(d, Duration(0, months, 0, 0, 0, 0), 0);
    DayLinear(d.year - 1, 12, d.day);
  }

  /** January 31 less one month ends three days early. */
  lemma BackFromJanuary()
    ensures var d, dur := Date(2000, 1, 31), Duration(0, -1, 0, 0, 0, 0);
      StoredDay(d, dur, 0) == Julian(MonthsAdded(d, dur)) - 3
  {
    LessMonthsDay(Date(2000, 1, 31), -1);
  }

  /** March 15 less three months is right, although the month sum is zero as well. */
  lemma BackFromMarch()
    ensures var d, dur := Date(2000, 3, 15), Duration(0, -3, 0, 0, 0, 0);
      StoredDay(d, dur, 0) == Julian(MonthsAdded(d, dur))
  {
    LessMonthsDay(Date(2000, 3, 15), -3);
  }
}
