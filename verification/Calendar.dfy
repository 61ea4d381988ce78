/** The proleptic Gregorian calendar in UTC, as Go's package time keeps it, over nanoseconds since the
    Unix epoch. */
module Calendar {
  const SECOND := 1_000_000_000
  const DAY := 86_400 * SECOND

  datatype Date = Date(year: int, month: int, day: int)

  predicate Leap(y: int)
  {
    y % 4 == 0 && (y % 100 != 0 || y % 400 == 0)
  }

  function DaysIn(y: int, m: int): int
  {
    if m == 2 then (if Leap(y) then 29 else 28)
    else if m == 4 || m == 6 || m == 9 || m == 11 then 30
    else 31
  }

  predicate ValidDate(d: Date)
  {
    1 <= d.month <= 12 && 1 <= d.day <= DaysIn(d.year, d.month)
  }

  /** The day number, counted from 1 January 1970, of the first day of a year. */
  function YearStart(y: int): int
  {
    365 * (y - 1) + (y - 1) / 4 - (y - 1) / 100 + (y - 1) / 400 - 719162
  }

  /** Days of year `y` before month `m`; 13 stands for the end of the year. */
  function MonthStart(y: int, m: int): int
  {
    var n := if Leap(y) then 1 else 0;
    if m <= 1 then 0
    else if m == 2 then 31
    else if m == 3 then 59 + n
    else if m == 4 then 90 + n
    else if m == 5 then 120 + n
    else if m == 6 then 151 + n
    else if m == 7 then 181 + n
    else if m == 8 then 212 + n
    else if m == 9 then 243 + n
    else if m == 10 then 273 + n
    else if m == 11 then 304 + n
    else if m == 12 then 334 + n
    else 365 + n
  }

  function MonthAt(y: int, yday: int): int
  {
    if yday < MonthStart(y, 2) then 1
    else if yday < MonthStart(y, 3) then 2
    else if yday < MonthStart(y, 4) then 3
    else if yday < MonthStart(y, 5) then 4
    else if yday < MonthStart(y, 6) then 5
    else if yday < MonthStart(y, 7) then 6
    else if yday < MonthStart(y, 8) then 7
    else if yday < MonthStart(y, 9) then 8
    else if yday < MonthStart(y, 10) then 9
    else if yday < MonthStart(y, 11) then 10
    else if yday < MonthStart(y, 12) then 11
    else 12
  }

  function DayNumber(d: Date): int
  {
    YearStart(d.year) + MonthStart(d.year, d.month) + d.day - 1
  }

  function Least(x: int, y: int): int
  {
    if x < y then x else y
  }

  /** The year a day lies in, by cycles of 400, 100, 4 and 1 years. */
  function YearOf(day: int): int
  {
    var d := day + 719162;
    var n400, r400 := d / 146097, d % 146097;
    var n100 := Least(r400 / 36524, 3);
    var r100 := r400 - 36524 * n100;
    var n4, r4 := r100 / 1461, r100 % 1461;
    400 * n400 + 100 * n100 + 4 * n4 + Least(r4 / 365, 3) + 1
  }

  /** Year, month and day of a day number. */
  function Civil(day: int): Date
  {
    var y := YearOf(day);
    var yday := day - YearStart(y);
    var m := MonthAt(y, yday);
    Date(y, m, yday - MonthStart(y, m) + 1)
  }

  // ----- Years -----

  lemma YearLength(y: int)
    ensures YearStart(y + 1) == YearStart(y) + MonthStart(y, 13)
  {
    Quotients(y, 4);
    Quotients(y, 100);
    Quotients(y, 400);
    Multiples(y);
  }

  lemma Multiples(y: int)
    ensures (y % 400 == 0 ==> y % 100 == 0) && (y % 100 == 0 ==> y % 4 == 0)
  {
  }

  lemma Quotients(y: int, k: int)
    requires k == 4 || k == 100 || k == 400
    ensures y / k == (y - 1) / k + (if y % k == 0 then 1 else 0)
  {
  }

  lemma {:induction false} YearsIncrease(x: int, y: int)
    requires x < y
    ensures YearStart(x + 1) <= YearStart(y)
    decreases y - x
  {
    if x + 1 < y {
      YearsIncrease(x + 1, y);
      YearLength(x + 1);
    }
  }

  lemma CycleQuotients(a: int, b: int, c: int, e: int)
    requires 0 <= b <= 3 && 0 <= c <= 24 && 0 <= e <= 3
    ensures var q := 400 * a + 100 * b + 4 * c + e;
            q / 4 == 100 * a + 25 * b + c && q / 100 == 4 * a + b && q / 400 == a
  {
  }

  /** A day as cycles of 400, 100, 4 and 1 years and the days left. */
  lemma Cycles(day: int) returns (a: int, b: int, c: int, e: int)
    ensures YearOf(day) == 400 * a + 100 * b + 4 * c + e + 1
    ensures 0 <= b <= 3 && 0 <= c <= 24 && 0 <= e <= 3
    ensures var r := day + 719162 - 146097 * a - 36524 * b - 1461 * c - 365 * e;
            && 0 <= r <= 365
            && (r == 365 ==> e == 3 && (c < 24 || b == 3))
  {
    var d := day + 719162;
    var r400 := d % 146097;
    a, b := d / 146097, Least(r400 / 36524, 3);
    var r100 := r400 - 36524 * b;
    assert 0 <= r100 <= 36524;
    c := r100 / 1461;
    e := Least(r100 % 1461 / 365, 3);
  }

  lemma YearFound(day: int)
    ensures var y := YearOf(day); YearStart(y) <= day < YearStart(y + 1)
  {
    hide YearOf, YearStart;
    var a, b, c, e := Cycles(day);
    YearInCycle(day, a, b, c, e);
  }

  /** The last year of a cycle is one day longer, unless a longer cycle ends with it. */
  lemma YearInCycle(day: int, a: int, b: int, c: int, e: int)
    requires 0 <= b <= 3 && 0 <= c <= 24 && 0 <= e <= 3
    requires var r := day + 719162 - 146097 * a - 36524 * b - 1461 * c - 365 * e;
             && 0 <= r <= 365
             && (r == 365 ==> e == 3 && (c < 24 || b == 3))
    ensures var y := 400 * a + 100 * b + 4 * c + e + 1; YearStart(y) <= day < YearStart(y + 1)
  {
    hide YearStart, Leap;
    var y := 400 * a + 100 * b + 4 * c + e + 1;
    CycleStart(a, b, c, e);
    YearLength(y);
    if e == 3 && (c < 24 || b == 3) {
      LastYearIsLeap(a, b, c);
    }
  }

  lemma CycleStart(a: int, b: int, c: int, e: int)
    requires 0 <= b <= 3 && 0 <= c <= 24 && 0 <= e <= 3
    ensures YearStart(400 * a + 100 * b + 4 * c + e + 1) == 146097 * a + 36524 * b + 1461 * c + 365 * e - 719162
  {
    CycleQuotients(a, b, c, e);
  }

  lemma LastYearIsLeap(a: int, b: int, c: int)
    requires 0 <= b <= 3 && 0 <= c <= 24 && (c < 24 || b == 3)
    ensures Leap(400 * a + 100 * b + 4 * (c + 1))
  {
    if c < 24 {
      CycleQuotients(a, b, c + 1, 0);
    } else {
      CycleQuotients(a + 1, 0, 0, 0);
    }
  }

  lemma YearUnique(day: int, y: int)
    requires YearStart(y) <= day < YearStart(y + 1)
    ensures YearOf(day) == y
  {
    YearFound(day);
    var z := YearOf(day);
    if z < y { YearsIncrease(z, y); } else if y < z { YearsIncrease(y, z); }
  }

  // ----- Dates -----

  lemma MonthLength(y: int, m: int)
    requires 1 <= m <= 12
    ensures MonthStart(y, m + 1) == MonthStart(y, m) + DaysIn(y, m)
  {
  }

  /** Every day has a date, and that date is its day's. */
  lemma CivilIsDate(day: int)
    ensures ValidDate(Civil(day)) && DayNumber(Civil(day)) == day
  {
    YearFound(day);
    YearLength(YearOf(day));
    hide YearOf, YearStart, Leap;
  }

  lemma DateWithinYear(d: Date)
    requires ValidDate(d)
    ensures YearStart(d.year) <= DayNumber(d) < YearStart(d.year + 1)
    ensures MonthAt(d.year, DayNumber(d) - YearStart(d.year)) == d.month
  {
    YearLength(d.year);
  }

  /** A date is read back from its day number. */
  lemma CivilOfDate(d: Date)
    requires ValidDate(d)
    ensures Civil(DayNumber(d)) == d
  {
    DateWithinYear(d);
    YearUnique(DayNumber(d), d.year);
  }

  // ----- Instants -----

  function DayOf(t: int): int
  {
    t / DAY
  }

  /** The weekday, Sunday being 0; 1 January 1970 was a Thursday. */
  function Weekday(t: int): (r: int)
    ensures 0 <= r < 7
  {
    (DayOf(t) + 4) % 7
  }

  /** Hour, minute and second, as nanoseconds since midnight. */
  function ClockOf(t: int): int
  {
    t % DAY - t % SECOND
  }

  /** AddDate(0, 0, n). */
  function AddDays(t: int, n: int): int
  {
    t + n * DAY
  }

  /** The instant at a clock on a day. */
  function At(day: int, clock: int): int
  {
    day * DAY + clock
  }

  /** time.Date in UTC: months outside 1..12 and days outside the month carry over. */
  function DateUTC(year: int, month: int, day: int, clock: int): int
  {
    var y := year + (month - 1) / 12;
    var m := (month - 1) % 12 + 1;
    At(YearStart(y) + MonthStart(y, m) + day - 1, clock)
  }

  function CivilOf(t: int): Date
  {
    Civil(DayOf(t))
  }

  /** An instant without its fraction of a second. */
  function Whole(t: int): int
  {
    t - t % SECOND
  }

  lemma ClockRange(t: int)
    ensures 0 <= ClockOf(t) < DAY && ClockOf(t) % SECOND == 0
    ensures Whole(t) == At(DayOf(t), ClockOf(t)) <= t < Whole(t) + SECOND
  {
    assert t == DayOf(t) * DAY + t % DAY;
    assert t % DAY % SECOND == t % SECOND;
  }

  /** The day and clock of an instant put together from a day and a clock. */
  lemma OnDay(day: int, clock: int)
    requires 0 <= clock < DAY && clock % SECOND == 0
    ensures var t := At(day, clock);
            DayOf(t) == day && ClockOf(t) == clock && Whole(t) == t && Weekday(t) == (day + 4) % 7
  {
    var t := day * DAY + clock;
    assert t / DAY == day && t % DAY == clock;
    assert t % SECOND == clock % SECOND;
  }

  lemma DaysApart(day: int, n: int, clock: int)
    ensures AddDays(At(day, clock), n) == At(day + n, clock)
    ensures n >= 1 ==> At(day, clock) + DAY <= At(day + n, clock)
  {
  }

  /** The first 86,400 seconds are 1 January 1970, a Thursday. */
  lemma EpochIsDayZero(t: int)
    requires 0 <= t < 86_400_000_000_000
    ensures CivilOf(t) == Date(1970, 1, 1) && Weekday(t) == 4
  {
    hide *;
    FirstDay(t);
    EpochNumber();
    CivilOfDate(Date(1970, 1, 1));
    OfDay(t);
  }

  lemma FirstDay(t: int)
    requires 0 <= t < 86_400_000_000_000
    ensures DayOf(t) == 0
  {
  }

  lemma EpochNumber()
    ensures DayNumber(Date(1970, 1, 1)) == 0 && ValidDate(Date(1970, 1, 1))
  {
  }

  lemma OfDay(t: int)
    ensures CivilOf(t) == Civil(DayOf(t)) && Weekday(t) == (DayOf(t) + 4) % 7
  {
    hide Civil;
  }

  /** Taking an instant apart and rebuilding it with time.Date loses exactly the fraction of a second. */
  lemma Rebuilt(t: int)
    ensures var d := CivilOf(t); DateUTC(d.year, d.month, d.day, ClockOf(t)) == Whole(t)
  {
    CivilIsDate(DayOf(t));
    ClockRange(t);
    SameDay(CivilOf(t), ClockOf(t));
    hide Civil, DayOf, ClockOf, Whole, DayNumber, ValidDate, At, DateUTC;
  }

  lemma SameDay(d: Date, clock: int)
    requires ValidDate(d)
    ensures DateUTC(d.year, d.month, d.day, clock) == At(DayNumber(d), clock)
  {
    assert (d.month - 1) / 12 == 0 && (d.month - 1) % 12 == d.month - 1;
    hide YearStart, MonthStart, DaysIn, At;
  }
}
