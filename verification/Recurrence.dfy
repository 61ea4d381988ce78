/** Expansion of a recurrence pattern (internal/product/recurrence.go). */
module Recurrence {
  import opened ByteStrings
  import opened Basics
  import opened Calendar

  type Interval = x: int | 1 <= x witness 1

  /** RecurrencePattern; `count` 0 stands for no limit. */
  datatype Pattern = Pattern(freq: Bytes, count: nat, until: Option<int>, byDay: seq<Bytes>, interval: Interval)

  const MAX_INSTANCES := 1000
  const MAX_WEEKS := 501

  function Limit(count: nat): nat
  {
    if 0 < count < MAX_INSTANCES then count else MAX_INSTANCES
  }

  /** dayToWeekday; a code that is not in the table reads as 0. */
  function DayIndex(code: Bytes): (r: int)
    ensures 0 <= r < 7
  {
    if code == "MO" then 1
    else if code == "TU" then 2
    else if code == "WE" then 3
    else if code == "TH" then 4
    else if code == "FR" then 5
    else if code == "SA" then 6
    else 0
  }

  /** The codes stand in the order of the week, from Sunday as 0. */
  lemma DayIndexIsPosition(d: nat)
    requires d < 7
    ensures DayIndex("SUMOTUWETHFRSA"[2 * d..2 * d + 2]) == d
  {
    var code := "SUMOTUWETHFRSA"[2 * d..2 * d + 2];
    assert code == [code[0], code[1]];
  }

  function EffectiveEnd(p: Pattern, until: int): int
  {
    if p.until.Some? && p.until.value < until then p.until.value else until
  }

  // ----- Series with one instance a step -----

  /** `r` lists at(0), at(1), … up to the last that is not after `end`, or up to the limit. */
  ghost predicate Series(r: seq<int>, at: int -> int, end: int, limit: nat)
  {
    && |r| <= limit
    && (forall i :: 0 <= i < |r| ==> r[i] == at(i) && r[i] <= end)
    && (|r| < limit ==> at(|r|) > end)
  }

  ghost predicate Increasing(at: int -> int)
  {
    forall i, j :: 0 <= i < j ==> at(i) < at(j)
  }

  predicate StrictlySorted(s: seq<int>)
  {
    forall i, j :: 0 <= i < j < |s| ==> s[i] < s[j]
  }

  /** Of an increasing sequence of instants, a series holds exactly those among the first `limit` that
      are not after the end. */
  lemma SeriesExactly(r: seq<int>, at: int -> int, end: int, limit: nat)
    requires Series(r, at, end, limit) && Increasing(at)
    ensures StrictlySorted(r)
    ensures forall t :: t in r <==> exists i :: 0 <= i < limit && at(i) == t && t <= end
  {
    forall t | exists i :: 0 <= i < limit && at(i) == t && t <= end ensures t in r {
      var i :| 0 <= i < limit && at(i) == t && t <= end;
      assert i < |r| ==> r[i] == t;
      assert |r| < i ==> at(|r|) < at(i);
    }
  }

  /** Every `days` days. */
  function EveryDays(start: int, days: int): int -> int
  {
    i => start + i * days * DAY
  }

  lemma DaysIncrease(start: int, days: int)
    requires days >= 1
    ensures Increasing(EveryDays(start, days))
  {
    forall i, j | 0 <= i < j ensures start + i * days * DAY < start + j * days * DAY {
      Scaled(i, j, days);
    }
  }

  lemma Scaled(i: int, j: int, n: int)
    requires 0 <= i < j && 1 <= n
    ensures 0 <= i * n < j * n
  {
    assert (j - i) * n >= 1;
  }

  method RepeatDays(start: int, days: int, end: int, count: nat) returns (r: seq<int>)
    ensures Series(r, EveryDays(start, days), end, Limit(count))
  {
    r := [];
    var current := start;
    var i := 0;
    while true
      invariant |r| == i <= Limit(count) && current == EveryDays(start, days)(i)
      invariant forall k :: 0 <= k < i ==> r[k] == EveryDays(start, days)(k) && r[k] <= end
      decreases MAX_INSTANCES - |r|
    {
      if count > 0 && i >= count {
        break;
      }
      if current > end {
        break;
      }
      if |r| >= MAX_INSTANCES {
        break;
      }
      r := r + [current];
      assert (i + 1) * days * DAY == i * days * DAY + days * DAY;
      current := AddDays(current, days);
      i := i + 1;
    }
  }

  // ----- MONTHLY -----

  /** Months counted from year 0. */
  function MonthIndex(d: Date): int
  {
    12 * d.year + d.month - 1
  }

  /** `day`, or the last day of the month with this index where that is earlier. */
  function ClampedDate(k: int, day: int): Date
  {
    Date(k / 12, k % 12 + 1, Least(day, DaysIn(k / 12, k % 12 + 1)))
  }

  /** The instant `n` months after the start, its day clamped to the end of that month. */
  function MonthsLater(start: int, n: int): int
  {
    if n == 0 then start
    else At(DayNumber(ClampedDate(MonthIndex(CivilOf(start)) + n, CivilOf(start).day)), ClockOf(start))
  }

  function EveryMonths(start: int, interval: int): int -> int
  {
    i => MonthsLater(start, i * interval)
  }

  /** lastDayOfMonth: day 0 of the next month. */
  function LastDayOfMonth(year: int, month: int): (r: int)
    requires 1 <= month <= 12
    ensures r == DaysIn(year, month)
  {
    LastDay(year, month);
    CivilOf(DateUTC(year, month + 1, 0, 0)).day
  }

  lemma LastDay(year: int, month: int)
    requires 1 <= month <= 12
    ensures CivilOf(DateUTC(year, month + 1, 0, 0)) == Date(year, month, DaysIn(year, month))
  {
    var d := Date(year, month, DaysIn(year, month));
    DayZero(year, month);
    LastIsDate(year, month);
    hide *;
    DateBack(d, 0);
  }

  lemma LastIsDate(year: int, month: int)
    requires 1 <= month <= 12
    ensures ValidDate(Date(year, month, DaysIn(year, month)))
  {
  }

  lemma DayZero(year: int, month: int)
    requires 1 <= month <= 12
    ensures DateUTC(year, month + 1, 0, 0) == At(DayNumber(Date(year, month, DaysIn(year, month))), 0)
  {
    MonthLength(year, month);
    YearLength(year);
    FirstOfYear(year + 1);
    if month < 12 {
      assert month / 12 == 0 && month % 12 == month;
    } else {
      assert month / 12 == 1 && month % 12 == 0;
    }
    hide YearStart, MonthStart, DaysIn, At;
  }

  lemma FirstOfYear(year: int)
    ensures MonthStart(year, 1) == 0
  {
  }

  /** Reading the date of the n-th month back gives month n of the series, and the start's own day
      wherever the month has it: a short month does not move the later ones. */
  lemma MonthsNeverDrift(start: int, n: nat)
    ensures CivilOf(MonthsLater(start, n)) == ClampedDate(MonthIndex(CivilOf(start)) + n, CivilOf(start).day)
    ensures MonthIndex(CivilOf(MonthsLater(start, n))) == MonthIndex(CivilOf(start)) + n
    ensures ClockOf(MonthsLater(start, n)) == ClockOf(start)
    ensures n > 0 ==> Whole(MonthsLater(start, n)) == MonthsLater(start, n)
  {
    hide *;
    var first := Civil(DayOf(start));
    CivilIsDate(DayOf(start));
    ClockRange(start);
    ClampedSelf(first);
    Clamped(MonthIndex(first) + n, first.day);
    DateBack(ClampedDate(MonthIndex(first) + n, first.day), ClockOf(start));
    MonthsLaterIs(start, n, first, ClampedDate(MonthIndex(first) + n, first.day));
  }

  lemma MonthsLaterIs(start: int, n: nat, first: Date, d: Date)
    requires first == Civil(DayOf(start)) && d == ClampedDate(MonthIndex(first) + n, first.day)
    ensures CivilOf(start) == first
    ensures MonthsLater(start, n) == if n == 0 then start else At(DayNumber(d), ClockOf(start))
  {
    hide Civil, DayOf, DayNumber, MonthIndex, ClampedDate, At, ClockOf;
  }

  lemma Clamped(k: int, day: int)
    requires day >= 1
    ensures ValidDate(ClampedDate(k, day)) && MonthIndex(ClampedDate(k, day)) == k
  {
  }

  lemma ClampedSelf(d: Date)
    requires ValidDate(d)
    ensures d.day >= 1 && ClampedDate(MonthIndex(d), d.day) == d
  {
  }

  lemma DateBack(d: Date, clock: int)
    requires ValidDate(d) && 0 <= clock < DAY && clock % SECOND == 0
    ensures var t := At(DayNumber(d), clock); CivilOf(t) == d && ClockOf(t) == clock && Whole(t) == t
  {
    CivilOfDate(d);
    OnDay(DayNumber(d), clock);
    hide Civil, DayNumber, ValidDate;
  }

  /** The first day of the month with this index. */
  function MonthOpens(k: int): int
  {
    DayNumber(Date(k / 12, k % 12 + 1, 1))
  }

  lemma MonthCloses(k: int)
    ensures MonthOpens(k + 1) == MonthOpens(k) + DaysIn(k / 12, k % 12 + 1)
  {
    var y, m := k / 12, k % 12 + 1;
    MonthLength(y, m);
    YearLength(y);
    if m < 12 {
      assert (k + 1) / 12 == y && (k + 1) % 12 + 1 == m + 1;
    } else {
      assert (k + 1) / 12 == y + 1 && (k + 1) % 12 + 1 == 1;
    }
    hide YearStart, DaysIn;
  }

  lemma {:induction false} MonthsOpenInOrder(k: int, m: int)
    requires k <= m
    ensures MonthOpens(k) <= MonthOpens(m)
    decreases m - k
  {
    if k < m {
      MonthsOpenInOrder(k + 1, m);
      MonthCloses(k);
    }
    hide MonthOpens;
  }

  lemma ClampedWithin(k: int, day: int)
    requires 1 <= day
    ensures MonthOpens(k) <= DayNumber(ClampedDate(k, day)) < MonthOpens(k + 1)
  {
    MonthCloses(k);
    hide YearStart, MonthStart;
  }

  lemma ClampedOrdered(k: int, m: int, day: int)
    requires k < m && 1 <= day
    ensures DayNumber(ClampedDate(k, day)) < DayNumber(ClampedDate(m, day))
  {
    ClampedWithin(k, day);
    ClampedWithin(m, day);
    MonthsOpenInOrder(k + 1, m);
    hide DayNumber, ClampedDate, MonthOpens;
  }

  lemma MonthsIncrease(start: int, interval: int)
    requires interval >= 1
    ensures Increasing(EveryMonths(start, interval))
  {
    hide MonthsLater;
    forall i, j | 0 <= i < j ensures MonthsLater(start, i * interval) < MonthsLater(start, j * interval) {
      Scaled(i, j, interval);
      MonthsOrdered(start, i * interval, j * interval);
    }
  }

  lemma MonthsOrdered(start: int, n: nat, m: nat)
    requires n < m
    ensures MonthsLater(start, n) < MonthsLater(start, m)
  {
    hide *;
    var d := Civil(DayOf(start));
    CivilIsDate(DayOf(start));
    ClampedSelf(d);
    ClockRange(start);
    ClampedOrdered(MonthIndex(d) + n, MonthIndex(d) + m, d.day);
    LaterInstant(d, start, n, m);
  }

  lemma LaterInstant(d: Date, start: int, n: nat, m: nat)
    requires n < m && d == Civil(DayOf(start)) && DayNumber(d) == DayOf(start)
    requires Whole(start) == At(DayOf(start), ClockOf(start)) <= start < Whole(start) + SECOND
    requires ClampedDate(MonthIndex(d), d.day) == d
    requires DayNumber(ClampedDate(MonthIndex(d) + n, d.day)) < DayNumber(ClampedDate(MonthIndex(d) + m, d.day))
    ensures MonthsLater(start, n) < MonthsLater(start, m)
  {
    var x, y := DayNumber(ClampedDate(MonthIndex(d) + n, d.day)), DayNumber(ClampedDate(MonthIndex(d) + m, d.day));
    DaysApart(x, y - x, ClockOf(start));
    hide Civil, ClampedDate, MonthIndex, ClockOf, DayNumber, At, DayOf, AddDays, Whole;
  }

  /** The body of the MONTHLY loop: the next instant. */
  method NextMonth(current: int, targetDay: int, interval: Interval) returns (next: int)
    ensures var k := MonthIndex(CivilOf(current)) + interval;
            next == At(DayNumber(ClampedDate(k, targetDay)), ClockOf(current))
  {
    CivilIsDate(DayOf(current));
    hide Civil, DayNumber, ClampedDate, ClockOf, DateUTC, DayOf;
    var year := CivilOf(current).year;
    var month := CivilOf(current).month + interval;
    while month > 12
      invariant month >= 1
      invariant 12 * year + month - 1 == MonthIndex(CivilOf(current)) + interval
    {
      month := month - 12;
      year := year + 1;
    }
    var lastDay := LastDayOfMonth(year, month);
    var day := targetDay;
    if day > lastDay {
      day := lastDay;
    }
    next := DateUTC(year, month, day, ClockOf(current));
    ClampedIs(year, month, targetDay, ClockOf(current));
  }

  lemma MonthOfIndex(year: int, month: int)
    requires 1 <= month <= 12
    ensures (12 * year + month - 1) / 12 == year && (12 * year + month - 1) % 12 == month - 1
    ensures (month - 1) / 12 == 0 && (month - 1) % 12 == month - 1
  {
  }

  lemma ClampedIs(year: int, month: int, day: int, clock: int)
    requires 1 <= month <= 12
    ensures var k := 12 * year + month - 1;
            DateUTC(year, month, Least(day, DaysIn(year, month)), clock)
            == At(DayNumber(ClampedDate(k, day)), clock)
  {
    var k := 12 * year + month - 1;
    MonthOfIndex(year, month);
    hide YearStart, MonthStart, DaysIn, At, Least;
    assert ClampedDate(k, day) == Date(year, month, Least(day, DaysIn(year, month)));
  }

  lemma NextInSeries(start: int, i: nat, interval: Interval)
    ensures var t := MonthsLater(start, i * interval);
            var k := MonthIndex(CivilOf(t)) + interval;
            MonthsLater(start, (i + 1) * interval)
            == At(DayNumber(ClampedDate(k, CivilOf(start).day)), ClockOf(t))
  {
    assert i * interval >= 0;
    assert (i + 1) * interval == i * interval + interval;
    MonthsNeverDrift(start, i * interval);
    hide Civil, CivilOf, ClampedDate, MonthIndex, ClockOf, DayNumber, At, DayOf, AddDays, Whole;
  }

  method RepeatMonths(start: int, interval: Interval, end: int, count: nat) returns (r: seq<int>)
    ensures Series(r, EveryMonths(start, interval), end, Limit(count))
  {
    hide Civil, CivilOf, ClampedDate, MonthIndex, ClockOf, DayNumber, At, DayOf, AddDays, Whole;
    assert 0 * interval == 0;
    r := [];
    var targetDay := CivilOf(start).day;
    var current := start;
    var i := 0;
    while true
      invariant |r| == i <= Limit(count) && current == EveryMonths(start, interval)(i)
      invariant forall k :: 0 <= k < i ==> r[k] == EveryMonths(start, interval)(k) && r[k] <= end
      decreases MAX_INSTANCES - |r|
    {
      if count > 0 && i >= count {
        break;
      }
      if current > end {
        break;
      }
      if |r| >= MAX_INSTANCES {
        break;
      }
      r := r + [current];
      current := NextMonth(current, targetDay, interval);
      NextInSeries(start, i, interval);
      i := i + 1;
    }
  }

  // ----- WEEKLY with BYDAY -----

  /** The Sunday that opens the week of `t`, as a day number. */
  function Sunday(t: int): int
  {
    DayOf(t) - Weekday(t)
  }

  /** The Sunday of the w-th week of the series, at the clock of the start. */
  function WeekStart(start: int, interval: int, w: int): int
  {
    At(Sunday(start) + 7 * (interval * w), ClockOf(start))
  }

  /** The instances kept of one week, for the first `j` day codes. */
  function InWeek(byDay: seq<Bytes>, j: nat, week: int, start: int, end: int): seq<int>
    requires j <= |byDay|
  {
    if j == 0 then []
    else
      var t := AddDays(week, DayIndex(byDay[j - 1]));
      InWeek(byDay, j - 1, week, start, end) + (if start <= t <= end then [t] else [])
  }

  /** The instances kept of the first `w` weeks, before any limit. */
  function Kept(byDay: seq<Bytes>, interval: int, start: int, end: int, w: nat): seq<int>
  {
    if w == 0 then []
    else Kept(byDay, interval, start, end, w - 1)
         + InWeek(byDay, |byDay|, WeekStart(start, interval, w - 1), start, end)
  }

  function Cut(s: seq<int>, n: nat): seq<int>
  {
    if |s| <= n then s else s[..n]
  }

  predicate Prefix(a: seq<int>, b: seq<int>)
  {
    |a| <= |b| && a == b[..|a|]
  }

  lemma AppendLast(a: seq<int>, b: seq<int>, x: int)
    ensures (a + b) + [x] == a + (b + [x])
  {
  }

  lemma CutWhole(s: seq<int>, n: nat)
    requires |s| <= n
    ensures Cut(s, n) == s
  {
  }

  lemma PrefixCut(a: seq<int>, b: seq<int>)
    requires Prefix(a, b)
    ensures Cut(b, |a|) == a
  {
  }

  lemma {:induction false} InWeekGrows(byDay: seq<Bytes>, j: nat, week: int, start: int, end: int)
    requires j <= |byDay|
    ensures Prefix(InWeek(byDay, j, week, start, end), InWeek(byDay, |byDay|, week, start, end))
    decreases |byDay| - j
  {
    if j < |byDay| {
      InWeekGrows(byDay, j + 1, week, start, end);
    }
  }

  lemma {:induction false} KeptGrows(byDay: seq<Bytes>, interval: int, start: int, end: int, w: nat, v: nat)
    requires w <= v
    ensures Prefix(Kept(byDay, interval, start, end, w), Kept(byDay, interval, start, end, v))
    decreases v - w
  {
    if w < v {
      KeptGrows(byDay, interval, start, end, w + 1, v);
    }
  }

  /** What a week has contributed so far is a prefix of the whole enumeration. */
  lemma PartGrows(byDay: seq<Bytes>, interval: int, start: int, end: int, w: nat, j: nat, v: nat)
    requires w < v && j <= |byDay|
    ensures Prefix(Kept(byDay, interval, start, end, w)
                   + InWeek(byDay, j, WeekStart(start, interval, w), start, end),
                   Kept(byDay, interval, start, end, v))
  {
    KeptGrows(byDay, interval, start, end, w + 1, v);
    InWeekGrows(byDay, j, WeekStart(start, interval, w), start, end);
    hide InWeek, WeekStart;
    PrefixChain(Kept(byDay, interval, start, end, w), InWeek(byDay, j, WeekStart(start, interval, w), start, end),
                InWeek(byDay, |byDay|, WeekStart(start, interval, w), start, end),
                Kept(byDay, interval, start, end, v));
  }

  lemma PrefixChain(a: seq<int>, b: seq<int>, c: seq<int>, d: seq<int>)
    requires Prefix(b, c) && Prefix(a + c, d)
    ensures Prefix(a + b, d)
  {
    assert d[..|a + b|] == d[..|a + c|][..|a + b|];
  }

  lemma {:induction false} LateWeek(byDay: seq<Bytes>, j: nat, week: int, start: int, end: int)
    requires j <= |byDay| && week > end
    ensures InWeek(byDay, j, week, start, end) == []
  {
    if j > 0 {
      LateWeek(byDay, j - 1, week, start, end);
    }
  }

  lemma WeekStep(start: int, interval: int, w: int)
    ensures WeekStart(start, interval, w + 1) == AddDays(WeekStart(start, interval, w), 7 * interval)
  {
    assert interval * (w + 1) == interval * w + interval;
  }

  /** Once a week starts after the end, nothing more is kept. */
  lemma {:induction false} NothingLater(byDay: seq<Bytes>, interval: Interval, start: int, end: int, w: nat, v: nat)
    requires w <= v && WeekStart(start, interval, w) > end
    ensures Kept(byDay, interval, start, end, v) == Kept(byDay, interval, start, end, w)
    decreases v - w
  {
    if w < v {
      LateWeek(byDay, |byDay|, WeekStart(start, interval, w), start, end);
      WeekStep(start, interval, w);
      NothingLater(byDay, interval, start, end, w + 1, v);
    }
  }

  /** The Sunday of the start's week, at its clock: the source rebuilds it field by field. */
  lemma FirstWeek(start: int, interval: int)
    ensures var back := AddDays(start, -Weekday(start));
            var d := CivilOf(back);
            DateUTC(d.year, d.month, d.day, ClockOf(start)) == WeekStart(start, interval, 0)
  {
    var back := AddDays(start, -Weekday(start));
    DaysBack(start, -Weekday(start));
    CivilIsDate(DayOf(back));
    hide Civil, DayOf, Weekday, At, ClockOf, YearStart, MonthStart, DaysIn, AddDays;
  }

  lemma DaysBack(t: int, n: int)
    ensures DayOf(AddDays(t, n)) == DayOf(t) + n
  {
  }

  method RepeatWeekdays(byDay: seq<Bytes>, interval: Interval, start: int, end: int, count: nat) returns (r: seq<int>)
    ensures r == Cut(Kept(byDay, interval, start, end, MAX_WEEKS), Limit(count))
  {
    var back := AddDays(start, -Weekday(start));
    var weekStart := DateUTC(CivilOf(back).year, CivilOf(back).month, CivilOf(back).day, ClockOf(start));
    FirstWeek(start, interval);
    hide DayIndex, WeekStart, DateUTC, CivilOf, Civil, Weekday, ClockOf, AddDays, Kept, InWeek, Cut, Prefix;
    KeptNone(byDay, interval, start, end);
    r := [];
    var n := 0;
    var weekOffset := 0;
    while true
      invariant 0 <= weekOffset < MAX_WEEKS && weekStart == WeekStart(start, interval, weekOffset)
      invariant r == Kept(byDay, interval, start, end, weekOffset)
      invariant n == |r| <= Limit(count) && n < MAX_INSTANCES
      decreases MAX_WEEKS - weekOffset
    {
      var anyAdded := false;
      var j := 0;
      InWeekNone(byDay, weekStart, start, end);
      while j < |byDay|
        invariant 0 <= j <= |byDay|
        invariant r == Kept(byDay, interval, start, end, weekOffset) + InWeek(byDay, j, weekStart, start, end)
        invariant n == |r| <= Limit(count) && n < MAX_INSTANCES
      {
        var dayDate := AddDays(weekStart, DayIndex(byDay[j]));
        InWeekStep(byDay, j, weekStart, start, end);
        j := j + 1;
        if dayDate < start || dayDate > end {
          continue;
        }
        PartGrows(byDay, interval, start, end, weekOffset, j - 1, MAX_WEEKS);
        PartGrows(byDay, interval, start, end, weekOffset, j, MAX_WEEKS);
        if count > 0 && n >= count {
          PrefixCut(r, Kept(byDay, interval, start, end, MAX_WEEKS));
          return;
        }
        AppendLast(Kept(byDay, interval, start, end, weekOffset), InWeek(byDay, j - 1, weekStart, start, end), dayDate);
        r := r + [dayDate];
        n := n + 1;
        anyAdded := true;
        if |r| >= MAX_INSTANCES {
          PrefixCut(r, Kept(byDay, interval, start, end, MAX_WEEKS));
          return;
        }
      }
      KeptStep(byDay, interval, start, end, weekOffset + 1);
      WeekStep(start, interval, weekOffset);
      var before := weekOffset;
      weekStart := AddDays(weekStart, 7 * interval);
      if weekStart > end {
        NothingLater(byDay, interval, start, end, before + 1, MAX_WEEKS);
      }
      if !anyAdded && before > 0 && weekStart > end {
        break;
      }
      weekOffset := weekOffset + 1;
      if weekStart > end && (count == 0 || n >= count) {
        break;
      }
      if weekOffset > 500 {
        break;
      }
    }
    CutWhole(r, Limit(count));
  }

  // ----- What the weekly enumeration holds -----

  ghost predicate OnDays(byDay: seq<Bytes>, d: int)
  {
    exists k :: 0 <= k < |byDay| && DayIndex(byDay[k]) == d
  }

  /** A whole second at the start's clock, on one of the days, in a week whose distance from the start's
      week is a multiple of the interval, with weeks running from Sunday and at most 500 multiples. */
  ghost predicate OnSchedule(byDay: seq<Bytes>, interval: Interval, start: int, t: int)
  {
    var days := Sunday(t) - Sunday(start);
    && Whole(t) == t && ClockOf(t) == ClockOf(start)
    && OnDays(byDay, Weekday(t))
    && days / 7 % interval == 0 && 0 <= days / 7 / interval <= 500
  }

  /** The d-th day of the w-th week. */
  function Slot(start: int, interval: int, w: int, d: int): int
  {
    AddDays(WeekStart(start, interval, w), d)
  }

  lemma SundayIsSunday(t: int)
    ensures (Sunday(t) + 4) % 7 == 0
  {
    hide DayOf;
  }

  lemma SlotFacts(start: int, interval: Interval, w: nat, d: int)
    requires 0 <= d < 7
    ensures var t := Slot(start, interval, w, d);
            && Whole(t) == t && ClockOf(t) == ClockOf(start) && Weekday(t) == d
            && Sunday(t) == Sunday(start) + 7 * (interval * w)
            && t == At(Sunday(start) + 7 * (interval * w) + d, ClockOf(start))
  {
    var day := Sunday(start) + 7 * (interval * w);
    ClockRange(start);
    DaysApart(day, d, ClockOf(start));
    OnDay(day + d, ClockOf(start));
    SundayIsSunday(start);
    hide At, DayOf, ClockOf, Whole, AddDays, Weekday;
    assert (day + d + 4) % 7 == d;
  }

  lemma SlotOnSchedule(byDay: seq<Bytes>, interval: Interval, start: int, w: nat, k: nat)
    requires w < MAX_WEEKS && k < |byDay|
    ensures OnSchedule(byDay, interval, start, Slot(start, interval, w, DayIndex(byDay[k])))
  {
    hide *;
    SlotFacts(start, interval, w, DayIndex(byDay[k]));
    Multiple(interval, w);
    Scheduled(byDay, interval, start, Slot(start, interval, w, DayIndex(byDay[k])), interval * w, k);
  }

  lemma Scheduled(byDay: seq<Bytes>, interval: Interval, start: int, t: int, weeks: int, k: nat)
    requires k < |byDay| && Weekday(t) == DayIndex(byDay[k])
    requires Whole(t) == t && ClockOf(t) == ClockOf(start) && Sunday(t) - Sunday(start) == 7 * weeks
    requires weeks % interval == 0 && 0 <= weeks / interval < MAX_WEEKS
    ensures OnSchedule(byDay, interval, start, t)
  {
    hide ClockOf, Whole, Sunday, Weekday, DayIndex;
    SevenTimes(weeks);
  }

  lemma SevenTimes(n: int)
    ensures 7 * n / 7 == n
  {
  }

  lemma Multiple(interval: Interval, w: nat)
    ensures interval * w / interval == w && interval * w % interval == 0
  {
    var x := interval * w;
    var q := x / interval;
    assert x == interval * q + x % interval;
    Between(interval, q - w, x % interval);
  }

  lemma Between(n: int, d: int, r: int)
    requires n >= 1 && 0 <= r < n && n * d + r == 0
    ensures d == 0 && r == 0
  {
    assert d >= 1 ==> n * d >= n;
    assert d <= -1 ==> n * d <= -n;
  }

  lemma ScheduleIsSlot(byDay: seq<Bytes>, interval: Interval, start: int, t: int)
    requires OnSchedule(byDay, interval, start, t)
    ensures var w := (Sunday(t) - Sunday(start)) / 7 / interval;
            0 <= w < MAX_WEEKS && t == Slot(start, interval, w, Weekday(t))
  {
    var days := Sunday(t) - Sunday(start);
    SundayIsSunday(start);
    SundayIsSunday(t);
    assert days == 7 * (days / 7);
    var w := days / 7 / interval;
    assert days / 7 == interval * w;
    SlotFacts(start, interval, w, Weekday(t));
    ClockRange(t);
    hide Slot, ClockOf, Whole, DayOf, At, Weekday;
  }

  lemma {:induction false} InWeekExactly(byDay: seq<Bytes>, j: nat, week: int, start: int, end: int, t: int)
    requires j <= |byDay|
    ensures t in InWeek(byDay, j, week, start, end) <==>
            start <= t <= end && exists k :: 0 <= k < j && AddDays(week, DayIndex(byDay[k])) == t
  {
    if j > 0 {
      InWeekExactly(byDay, j - 1, week, start, end, t);
    }
    hide AddDays, DayIndex;
  }

  /** Kept in the first `w` weeks are exactly the slots within range. */
  lemma {:induction false} KeptSlots(byDay: seq<Bytes>, interval: Interval, start: int, end: int, w: nat, t: int)
    ensures t in Kept(byDay, interval, start, end, w) <==>
            start <= t <= end && SlotBefore(byDay, interval, start, w, t)
  {
    hide AddDays, DayIndex, WeekStart, InWeek;
    if w > 0 {
      hide SlotBefore;
      KeptSlots(byDay, interval, start, end, w - 1, t);
      InWeekExactly(byDay, |byDay|, WeekStart(start, interval, w - 1), start, end, t);
      SlotStep(byDay, interval, start, w, t);
      KeptStep(byDay, interval, start, end, w);
      hide Kept;
    }
  }

  lemma KeptNone(byDay: seq<Bytes>, interval: int, start: int, end: int)
    ensures Kept(byDay, interval, start, end, 0) == []
  {
  }

  lemma InWeekNone(byDay: seq<Bytes>, week: int, start: int, end: int)
    ensures InWeek(byDay, 0, week, start, end) == []
  {
  }

  lemma InWeekStep(byDay: seq<Bytes>, j: nat, week: int, start: int, end: int)
    requires j < |byDay|
    ensures var t := AddDays(week, DayIndex(byDay[j]));
            InWeek(byDay, j + 1, week, start, end)
            == InWeek(byDay, j, week, start, end) + (if start <= t <= end then [t] else [])
  {
    hide AddDays, DayIndex;
  }

  lemma KeptStep(byDay: seq<Bytes>, interval: int, start: int, end: int, w: nat)
    requires w > 0
    ensures Kept(byDay, interval, start, end, w)
         == Kept(byDay, interval, start, end, w - 1)
            + InWeek(byDay, |byDay|, WeekStart(start, interval, w - 1), start, end)
  {
    hide InWeek, WeekStart;
  }

  ghost predicate SlotBefore(byDay: seq<Bytes>, interval: Interval, start: int, w: nat, t: int)
  {
    exists v, k :: 0 <= v < w && 0 <= k < |byDay| && Slot(start, interval, v, DayIndex(byDay[k])) == t
  }

  lemma SlotStep(byDay: seq<Bytes>, interval: Interval, start: int, w: nat, t: int)
    requires w > 0
    ensures SlotBefore(byDay, interval, start, w, t) <==>
            || SlotBefore(byDay, interval, start, w - 1, t)
            || exists k :: 0 <= k < |byDay| && AddDays(WeekStart(start, interval, w - 1), DayIndex(byDay[k])) == t
  {
    hide DayIndex, WeekStart, AddDays;
    if SlotBefore(byDay, interval, start, w, t) {
      var v, k :| 0 <= v < w && 0 <= k < |byDay| && Slot(start, interval, v, DayIndex(byDay[k])) == t;
      assert v == w - 1 ==> AddDays(WeekStart(start, interval, w - 1), DayIndex(byDay[k])) == t;
    }
    if k :| 0 <= k < |byDay| && AddDays(WeekStart(start, interval, w - 1), DayIndex(byDay[k])) == t {
      assert Slot(start, interval, w - 1, DayIndex(byDay[k])) == t;
    }
  }

  /** The enumeration holds exactly the scheduled instants from the start to the end. */
  lemma KeptExactly(byDay: seq<Bytes>, interval: Interval, start: int, end: int, t: int)
    ensures t in Kept(byDay, interval, start, end, MAX_WEEKS) <==>
            start <= t <= end && OnSchedule(byDay, interval, start, t)
  {
    hide Kept, Slot, OnSchedule, DayIndex, Sunday, Weekday;
    KeptSlots(byDay, interval, start, end, MAX_WEEKS, t);
    if t in Kept(byDay, interval, start, end, MAX_WEEKS) {
      var v, k :| 0 <= v < MAX_WEEKS && 0 <= k < |byDay| && Slot(start, interval, v, DayIndex(byDay[k])) == t;
      SlotOnSchedule(byDay, interval, start, v, k);
    }
    if OnSchedule(byDay, interval, start, t) {
      ScheduleIsSlot(byDay, interval, start, t);
      ScheduledDay(byDay, interval, start, t);
    }
  }

  lemma ScheduledDay(byDay: seq<Bytes>, interval: Interval, start: int, t: int)
    requires OnSchedule(byDay, interval, start, t)
    ensures exists k :: 0 <= k < |byDay| && DayIndex(byDay[k]) == Weekday(t)
  {
    hide DayIndex, Sunday, Weekday;
  }

  /** BYDAY listed in increasing SU..SA order. */
  predicate DaysSorted(byDay: seq<Bytes>)
  {
    forall i, j :: 0 <= i < j < |byDay| ==> DayIndex(byDay[i]) < DayIndex(byDay[j])
  }

  predicate Below(s: seq<int>, bound: int)
  {
    forall x <- s :: x < bound
  }

  lemma BothBelow(a: seq<int>, b: seq<int>, x: int, y: int, bound: int)
    requires Below(a, x) && Below(b, y) && x <= bound && y <= bound
    ensures Below(a + b, bound)
  {
  }

  lemma NextWeekIsLater(start: int, interval: Interval, w: nat)
    ensures WeekStart(start, interval, w)
          < AddDays(WeekStart(start, interval, w), 7)
         <= WeekStart(start, interval, w + 1)
  {
    WeekStep(start, interval, w);
    DayOrder(WeekStart(start, interval, w), 0, 7);
    DayOrder(WeekStart(start, interval, w), 7, 7 * interval);
    hide WeekStart, AddDays;
  }

  lemma SortedAppend(a: seq<int>, b: seq<int>, bound: int)
    requires StrictlySorted(a) && StrictlySorted(b)
    requires Below(a, bound) && forall x <- b :: bound <= x
    ensures StrictlySorted(a + b)
  {
    var s := a + b;
    forall i, j | 0 <= i < j < |s| ensures s[i] < s[j] {
      assert i < |a| ==> a[i] in a;
      assert j >= |a| ==> b[j - |a|] in b;
    }
  }

  lemma {:induction false} InWeekSorted(byDay: seq<Bytes>, j: nat, week: int, start: int, end: int)
    requires j <= |byDay| && DaysSorted(byDay)
    ensures var s := InWeek(byDay, j, week, start, end);
            && StrictlySorted(s)
            && (forall x <- s :: week <= x) && Below(s, AddDays(week, 7))
            && (j < |byDay| ==> Below(s, AddDays(week, DayIndex(byDay[j]))))
  {
    if j > 0 {
      InWeekSorted(byDay, j - 1, week, start, end);
      DayOrder(week, DayIndex(byDay[j - 1]), 7);
      DayOrder(week, 0, DayIndex(byDay[j - 1]));
      if j < |byDay| {
        DayOrder(week, DayIndex(byDay[j - 1]), DayIndex(byDay[j]));
      }
      var t := AddDays(week, DayIndex(byDay[j - 1]));
      SortedAppend(InWeek(byDay, j - 1, week, start, end), [t], t);
      hide AddDays, DayIndex;
    }
  }

  lemma DayOrder(t: int, m: int, n: int)
    ensures m < n ==> AddDays(t, m) < AddDays(t, n)
    ensures AddDays(t, 0) == t
  {
  }

  /** With the days in order the enumeration is strictly increasing. */
  lemma {:induction false} KeptIncreases(byDay: seq<Bytes>, interval: Interval, start: int, end: int, w: nat)
    requires DaysSorted(byDay)
    ensures StrictlySorted(Kept(byDay, interval, start, end, w))
    ensures Below(Kept(byDay, interval, start, end, w), WeekStart(start, interval, w))
  {
    if w > 0 {
      hide *;
      var week := WeekStart(start, interval, w - 1);
      KeptIncreases(byDay, interval, start, end, w - 1);
      InWeekSorted(byDay, |byDay|, week, start, end);
      SortedAppend(Kept(byDay, interval, start, end, w - 1), InWeek(byDay, |byDay|, week, start, end), week);
      NextWeekIsLater(start, interval, w - 1);
      BothBelow(Kept(byDay, interval, start, end, w - 1), InWeek(byDay, |byDay|, week, start, end),
                week, AddDays(week, 7), WeekStart(start, interval, w));
      KeptStep(byDay, interval, start, end, w);
    }
  }

  // ----- Days out of order -----

  /** Codes whose date is out of range contribute nothing. */
  lemma {:induction false} InWeekSkips(byDay: seq<Bytes>, a: nat, b: nat, week: int, start: int, end: int)
    requires a <= b <= |byDay|
    requires forall k :: a <= k < b ==> !(start <= AddDays(week, DayIndex(byDay[k])) <= end)
    ensures InWeek(byDay, b, week, start, end) == InWeek(byDay, a, week, start, end)
  {
    if a < b {
      InWeekSkips(byDay, a, b - 1, week, start, end);
      InWeekStep(byDay, b - 1, week, start, end);
    }
    hide InWeek, AddDays, DayIndex;
  }

  /** Two codes out of order, the first such pair. */
  predicate FirstDescent(byDay: seq<Bytes>, i: nat, j: nat)
  {
    && i < j < |byDay| && DayIndex(byDay[i]) >= DayIndex(byDay[j])
    && (forall a, b :: 0 <= a < b < j ==> DayIndex(byDay[a]) < DayIndex(byDay[b]))
    && (forall a :: 0 <= a < i ==> DayIndex(byDay[a]) < DayIndex(byDay[j]))
  }

  lemma {:induction false} DescentExists(byDay: seq<Bytes>) returns (i: nat, j: nat)
    requires !DaysSorted(byDay)
    ensures FirstDescent(byDay, i, j)
  {
    hide DayIndex;
    var n := |byDay| - 1;
    var init := byDay[..n];
    assert forall k :: 0 <= k < n ==> init[k] == byDay[k];
    if DaysSorted(init) {
      j := n;
      i := LeastFrom(byDay, n, n);
    } else {
      i, j := DescentExists(init);
    }
  }

  /** The first code not before the j-th, of the first n; n if there is none. */
  lemma {:induction false} LeastFrom(byDay: seq<Bytes>, j: nat, n: nat) returns (i: nat)
    requires n <= j < |byDay|
    ensures i <= n && forall a :: 0 <= a < i ==> DayIndex(byDay[a]) < DayIndex(byDay[j])
    ensures i < n ==> DayIndex(byDay[i]) >= DayIndex(byDay[j])
  {
    hide DayIndex;
    i := 0;
    if n > 0 {
      i := LeastFrom(byDay, j, n - 1);
      if i == n - 1 && DayIndex(byDay[n - 1]) < DayIndex(byDay[j]) {
        i := n;
      }
    }
  }

  /** Between the dates of a descent, in the week of a Sunday, the enumeration starts with its two dates. */
  lemma DescentKept(byDay: seq<Bytes>, interval: Interval, sunday: int, i: nat, j: nat)
    requires FirstDescent(byDay, i, j) && (sunday + 4) % 7 == 0
    ensures var start, end := At(sunday + DayIndex(byDay[j]), 0), At(sunday + DayIndex(byDay[i]), 0);
            && end >= start && Prefix([end, start], Kept(byDay, interval, start, end, MAX_WEEKS))
  {
    var week := At(sunday, 0);
    var start, end := At(sunday + DayIndex(byDay[j]), 0), At(sunday + DayIndex(byDay[i]), 0);
    DescentInWeek(byDay, sunday, i, j);
    OnDay(sunday + DayIndex(byDay[j]), 0);
    hide At, DayIndex, AddDays, InWeek, Kept, FirstDescent, DayOf, Weekday, ClockOf;
    assert Sunday(start) == sunday;
    FirstIs(start, interval, sunday);
    PartGrows(byDay, interval, start, end, 0, j + 1, MAX_WEEKS);
    KeptNone(byDay, interval, start, end);
    assert [] + [end, start] == [end, start];
  }

  lemma FirstIs(start: int, interval: int, sunday: int)
    requires Sunday(start) == sunday && ClockOf(start) == 0
    ensures WeekStart(start, interval, 0) == At(sunday, 0)
  {
    hide At, Sunday, ClockOf;
    assert interval * 0 == 0;
  }

  lemma DescentInWeek(byDay: seq<Bytes>, sunday: int, i: nat, j: nat)
    requires FirstDescent(byDay, i, j)
    ensures var start, end := At(sunday + DayIndex(byDay[j]), 0), At(sunday + DayIndex(byDay[i]), 0);
            start <= end && InWeek(byDay, j + 1, At(sunday, 0), start, end) == [end, start]
  {
    hide *;
    assert i < j < |byDay| && DayIndex(byDay[j]) <= DayIndex(byDay[i]) by {
      DescentFacts(byDay, i, j);
    }
    var week := At(sunday, 0);
    var start, end := At(sunday + DayIndex(byDay[j]), 0), At(sunday + DayIndex(byDay[i]), 0);
    DateOrder(sunday, DayIndex(byDay[j]), DayIndex(byDay[i]));
    assert InWeek(byDay, i, week, start, end) == [] by {
      DescentFacts(byDay, i, j);
      BeforeRange(byDay, i, sunday, DayIndex(byDay[j]), end);
      InWeekSkips(byDay, 0, i, week, start, end);
      InWeekNone(byDay, week, start, end);
    }
    InWeekStep(byDay, i, week, start, end);
    assert InWeek(byDay, j, week, start, end) == InWeek(byDay, i + 1, week, start, end) by {
      DescentFacts(byDay, i, j);
      AfterRange(byDay, i + 1, j, sunday, start, DayIndex(byDay[i]));
      InWeekSkips(byDay, i + 1, j, week, start, end);
    }
    InWeekStep(byDay, j, week, start, end);
  }

  lemma BeforeRange(byDay: seq<Bytes>, n: nat, sunday: int, first: int, end: int)
    requires n <= |byDay| && forall k :: 0 <= k < n ==> DayIndex(byDay[k]) < first
    ensures forall k :: 0 <= k < n ==>
              !(At(sunday + first, 0) <= AddDays(At(sunday, 0), DayIndex(byDay[k])) <= end)
  {
    hide At, DayIndex, AddDays;
    forall k | 0 <= k < n ensures AddDays(At(sunday, 0), DayIndex(byDay[k])) < At(sunday + first, 0) {
      DateOrder(sunday, DayIndex(byDay[k]), first);
    }
  }

  lemma AfterRange(byDay: seq<Bytes>, a: nat, b: nat, sunday: int, start: int, last: int)
    requires b <= |byDay| && forall k :: a <= k < b ==> DayIndex(byDay[k]) > last
    ensures forall k :: a <= k < b ==>
              !(start <= AddDays(At(sunday, 0), DayIndex(byDay[k])) <= At(sunday + last, 0))
  {
    hide At, DayIndex, AddDays;
    forall k | a <= k < b ensures AddDays(At(sunday, 0), DayIndex(byDay[k])) > At(sunday + last, 0) {
      DateOrder(sunday, last, DayIndex(byDay[k]));
    }
  }

  lemma DescentFacts(byDay: seq<Bytes>, i: nat, j: nat)
    requires FirstDescent(byDay, i, j)
    ensures i < j < |byDay| && DayIndex(byDay[j]) <= DayIndex(byDay[i])
    ensures forall k :: 0 <= k < i ==> DayIndex(byDay[k]) < DayIndex(byDay[j])
    ensures forall k :: i < k < j ==> DayIndex(byDay[i]) < DayIndex(byDay[k])
  {
    hide DayIndex;
  }

  lemma DateOrder(sunday: int, m: int, n: int)
    ensures AddDays(At(sunday, 0), m) == At(sunday + m, 0) && AddDays(At(sunday, 0), n) == At(sunday + n, 0)
    ensures m < n ==> At(sunday + m, 0) < At(sunday + n, 0)
  {
    DaysApart(sunday, m, 0);
    DaysApart(sunday, n, 0);
    DaysApart(sunday + m, n - m, 0);
    hide At, AddDays;
  }

  lemma DescentUnsorted(a: int, b: int, s: seq<int>)
    requires Prefix([a, b], s) && a >= b
    ensures |s| >= 2 && !StrictlySorted(s)
  {
    assert s[..2][0] == s[0] && s[..2][1] == s[1];
  }

  /** Order, exactly. The enumeration of a day list is strictly increasing from every start to every end
      if and only if the list is in week order without repeats. */
  lemma OrderExactly(byDay: seq<Bytes>, interval: Interval)
    ensures DaysSorted(byDay)
       <==> forall start, end :: StrictlySorted(Kept(byDay, interval, start, end, MAX_WEEKS))
  {
    if DaysSorted(byDay) {
      forall start, end ensures StrictlySorted(Kept(byDay, interval, start, end, MAX_WEEKS)) {
        KeptIncreases(byDay, interval, start, end, MAX_WEEKS);
      }
    } else {
      var i, j := DescentExists(byDay);
      hide DaysSorted, StrictlySorted, Kept, DayIndex, At, Prefix;
      var start, end := At(3 + DayIndex(byDay[j]), 0), At(3 + DayIndex(byDay[i]), 0);
      DescentKept(byDay, interval, 3, i, j);
      DescentUnsorted(end, start, Kept(byDay, interval, start, end, MAX_WEEKS));
    }
  }

  // ----- ExpandInstances -----

  /** What the expansion of a pattern is. */
  ghost predicate Expansion(p: Pattern, start: int, until: int, r: seq<int>)
  {
    var end, limit := EffectiveEnd(p, until), Limit(p.count);
    if p.freq == "DAILY" then Series(r, EveryDays(start, p.interval), end, limit)
    else if p.freq == "WEEKLY" && p.byDay == [] then Series(r, EveryDays(start, 7 * p.interval), end, limit)
    else if p.freq == "WEEKLY" then r == Cut(Kept(p.byDay, p.interval, start, end, MAX_WEEKS), limit)
    else if p.freq == "MONTHLY" then Series(r, EveryMonths(start, p.interval), end, limit)
    else r == []
  }

  /** Instance number `k` of a pattern falls on `t` and is wanted: it is one of the first COUNT and one of the
      first 1000, and not after either end. */
  predicate Wanted(p: Pattern, until: int, k: int, t: int)
  {
    && 0 <= k < 1000 && (p.count > 0 ==> k < p.count)
    && t <= until && (p.until.Some? ==> t <= p.until.value)
  }

  /** `t` is in the n-th month after that of the start, at the clock of the start, on the start's day of the
      month or, if that month is shorter, on its last day. */
  predicate MonthAfter(start: int, n: int, t: int)
  {
    var from, to := CivilOf(start), CivilOf(t);
    && t % 1_000_000_000 == 0 && ClockOf(t) == ClockOf(start)
    && 12 * to.year + to.month == 12 * from.year + from.month + n
    && to.day == if from.day <= DaysIn(to.year, to.month) then from.day else DaysIn(to.year, to.month)
  }

  lemma SeriesWanted(p: Pattern, until: int, r: seq<int>, at: int -> int)
    requires Series(r, at, EffectiveEnd(p, until), Limit(p.count)) && Increasing(at)
    ensures StrictlySorted(r) && forall t :: t in r <==> exists k :: Wanted(p, until, k, t) && t == at(k)
  {
    SeriesExactly(r, at, EffectiveEnd(p, until), Limit(p.count));
    forall t ensures t in r <==> exists k :: Wanted(p, until, k, t) && t == at(k) {
      if t in r {
        var k :| 0 <= k < Limit(p.count) && at(k) == t && t <= EffectiveEnd(p, until);
        assert Wanted(p, until, k, t);
      }
      if k :| Wanted(p, until, k, t) && t == at(k) {
        assert 0 <= k < Limit(p.count) && at(k) == t && t <= EffectiveEnd(p, until);
      }
    }
  }

  lemma DaysWanted(p: Pattern, start: int, until: int, days: int, r: seq<int>)
    requires days >= 1 && Series(r, EveryDays(start, days), EffectiveEnd(p, until), Limit(p.count))
    ensures StrictlySorted(r)
    ensures forall t :: t in r <==>
              exists k :: Wanted(p, until, k, t) && t == start + k * days * 86_400_000_000_000
  {
    DaysIncrease(start, days);
    SeriesWanted(p, until, r, EveryDays(start, days));
    hide StrictlySorted, Wanted, Series, EffectiveEnd;
  }

  lemma MonthsWanted(p: Pattern, start: int, until: int, r: seq<int>)
    requires Series(r, EveryMonths(start, p.interval), EffectiveEnd(p, until), Limit(p.count))
    ensures StrictlySorted(r)
    ensures forall t :: t in r <==>
              exists k :: Wanted(p, until, k, t) && if k == 0 then t == start else MonthAfter(start, k * p.interval, t)
  {
    var at := EveryMonths(start, p.interval);
    MonthsIncrease(start, p.interval);
    SeriesWanted(p, until, r, at);
    hide StrictlySorted, Series, EffectiveEnd, MonthAfter, MonthsLater;
    forall k, t | Wanted(p, until, k, t)
      ensures t == at(k) <==> if k == 0 then t == start else MonthAfter(start, k * p.interval, t)
    {
      if k == 0 {
        assert 0 * p.interval == 0;
        MonthsLaterZero(start);
      } else {
        Scaled(0, k, p.interval);
        MonthAfterExactly(start, k * p.interval, t);
      }
    }
  }

  lemma MonthsLaterZero(start: int)
    ensures MonthsLater(start, 0) == start
  {
  }

  lemma MonthAfterExactly(start: int, n: nat, t: int)
    requires n > 0
    ensures t == MonthsLater(start, n) <==> MonthAfter(start, n, t)
  {
    hide *;
    var x := MonthsLater(start, n);
    MonthsNeverDrift(start, n);
    CivilIsDate(DayOf(start));
    CivilIsDate(DayOf(t));
    Rebuilt(t);
    Rebuilt(x);
    AfterIsClamped(start, n, t);
    AfterIsClamped(start, n, x);
    SameInstant(t, x);
  }

  lemma SameInstant(t: int, x: int)
    ensures t == x <==> CivilOf(t) == CivilOf(x) && ClockOf(t) == ClockOf(x) && t - Whole(t) == x - Whole(x)
  {
    Rebuilt(t);
    Rebuilt(x);
    hide CivilOf, ClockOf, DateUTC;
  }

  lemma AfterIsClamped(start: int, n: nat, t: int)
    ensures MonthAfter(start, n, t) <==>
              && Whole(t) == t && ClockOf(t) == ClockOf(start)
              && CivilOf(t) == ClampedDate(MonthIndex(CivilOf(start)) + n, CivilOf(start).day)
  {
    CivilIsDate(DayOf(start));
    CivilIsDate(DayOf(t));
    hide Civil, DayOf, DayNumber, DaysIn, ClockOf;
  }

  predicate InRange(p: Pattern, start: int, until: int, t: int)
  {
    start <= t <= until && (p.until.Some? ==> t <= p.until.value)
  }

  /** A pattern with days: on the schedule and in range, and all of it unless COUNT or 1000 cuts it short;
      with the days in week order the first ones remain. */
  ghost predicate DaysListed(p: Pattern, start: int, until: int, r: seq<int>)
  {
    var most := if p.count == 0 || p.count > 1000 then 1000 else p.count;
    && |r| <= most
    && (forall t :: t in r ==> InRange(p, start, until, t) && OnSchedule(p.byDay, p.interval, start, t))
    && (forall t :: InRange(p, start, until, t) && OnSchedule(p.byDay, p.interval, start, t) ==>
          t in r || (|r| == most && (DaysSorted(p.byDay) ==> forall x :: x in r ==> x < t)))
    && (DaysSorted(p.byDay) ==> StrictlySorted(r))
  }

  lemma DaysAreListed(p: Pattern, start: int, until: int, r: seq<int>)
    requires p.byDay != []
    requires r == Cut(Kept(p.byDay, p.interval, start, EffectiveEnd(p, until), MAX_WEEKS), Limit(p.count))
    ensures DaysListed(p, start, until, r)
  {
    var end := EffectiveEnd(p, until);
    var all := Kept(p.byDay, p.interval, start, end, MAX_WEEKS);
    hide Kept, OnSchedule, DaysSorted;
    if DaysSorted(p.byDay) {
      KeptIncreases(p.byDay, p.interval, start, end, MAX_WEEKS);
    }
    forall t
      ensures t in all <==> InRange(p, start, until, t) && OnSchedule(p.byDay, p.interval, start, t)
    {
      KeptExactly(p.byDay, p.interval, start, end, t);
    }
    CutHolds(all, Limit(p.count));
  }

  lemma CutHolds(s: seq<int>, n: nat)
    ensures var r := Cut(s, n);
            && |r| <= n && (forall t :: t in r ==> t in s)
            && (forall t :: t in s ==> t in r || (|r| == n && (StrictlySorted(s) ==> forall x :: x in r ==> x < t)))
            && (StrictlySorted(s) ==> StrictlySorted(r))
  {
    if |s| > n && StrictlySorted(s) {
      forall t | t in s ensures t in s[..n] || forall x :: x in s[..n] ==> x < t {
        var j :| 0 <= j < |s| && s[j] == t;
        if j < n {
          assert s[..n][j] == t;
        }
      }
    }
  }

  method ExpandInstances(p: Pattern, start: int, until: int) returns (instances: seq<int>)
    ensures Expansion(p, start, until, instances)
    ensures p.freq == "DAILY" ==> forall t :: t in instances <==>
              exists k :: Wanted(p, until, k, t) && t == start + k * p.interval * 86_400_000_000_000
    ensures p.freq == "WEEKLY" && p.byDay == [] ==> forall t :: t in instances <==>
              exists k :: Wanted(p, until, k, t) && t == start + k * (7 * p.interval) * 86_400_000_000_000
    ensures p.freq == "MONTHLY" ==> forall t :: t in instances <==>
              exists k :: Wanted(p, until, k, t) && if k == 0 then t == start else MonthAfter(start, k * p.interval, t)
    ensures p.freq == "WEEKLY" && p.byDay != [] ==> DaysListed(p, start, until, instances)
    ensures p.freq != "WEEKLY" || p.byDay == [] ==> StrictlySorted(instances)
    ensures p.freq != "DAILY" && p.freq != "WEEKLY" && p.freq != "MONTHLY" ==> instances == []
  {
    hide EveryDays, EveryMonths, Series, Wanted, MonthAfter, StrictlySorted, Cut, Kept, DaysListed;
    var effectiveEnd := until;
    if p.until.Some? && p.until.value < effectiveEnd {
      effectiveEnd := p.until.value;
    }
    assert effectiveEnd == EffectiveEnd(p, until);
    instances := [];
    Nothing();
    if p.freq == "DAILY" {
      instances := RepeatDays(start, p.interval, effectiveEnd, p.count);
      DaysWanted(p, start, until, p.interval, instances);
    } else if p.freq == "WEEKLY" {
      if |p.byDay| > 0 {
        instances := RepeatWeekdays(p.byDay, p.interval, start, effectiveEnd, p.count);
        DaysAreListed(p, start, until, instances);
      } else {
        instances := RepeatDays(start, 7 * p.interval, effectiveEnd, p.count);
        DaysWanted(p, start, until, 7 * p.interval, instances);
      }
    } else if p.freq == "MONTHLY" {
      instances := RepeatMonths(start, p.interval, effectiveEnd, p.count);
      MonthsWanted(p, start, until, instances);
    }
  }

  lemma Nothing()
    ensures StrictlySorted([])
  {
  }

  predicate Supported(p: Pattern)
  {
    p.freq == "DAILY" || p.freq == "WEEKLY" || p.freq == "MONTHLY"
  }

  /** Are the days given, and used? */
  predicate ByDays(p: Pattern)
  {
    p.freq == "WEEKLY" && p.byDay != []
  }

  /** Every expansion lists instants from the start to the effective end, at most as many as the limit;
      and unless days out of week order are given it lists them in increasing order, without repeats. */
  lemma ExpansionIsOrdered(p: Pattern, start: int, until: int, r: seq<int>)
    requires Supported(p) && Expansion(p, start, until, r)
    ensures |r| <= Limit(p.count) && forall t <- r :: start <= t <= EffectiveEnd(p, until)
    ensures ByDays(p) ==> DaysSorted(p.byDay) ==> StrictlySorted(r)
    ensures !ByDays(p) ==> StrictlySorted(r)
  {
    var end := EffectiveEnd(p, until);
    if ByDays(p) {
      hide DaysSorted;
      if DaysSorted(p.byDay) {
        KeptIncreases(p.byDay, p.interval, start, end, MAX_WEEKS);
      }
      forall t | t in r ensures start <= t <= end {
        KeptExactly(p.byDay, p.interval, start, end, t);
      }
    } else {
      var at := SeriesOf(p, start);
      SeriesIncreases(p, start);
      hide EveryDays, EveryMonths, SeriesOf;
      SeriesExactly(r, at, end, Limit(p.count));
      assert forall i :: 0 < i < |r| ==> at(0) < at(i);
    }
  }

  /** Order of a pattern with days, exactly: all its expansions are strictly increasing if and only if the
      days are in week order, or just one instance is asked for. */
  lemma ExpansionOrderExactly(p: Pattern)
    requires ByDays(p)
    ensures DaysSorted(p.byDay) || p.count == 1 <==>
            forall start, until, r :: Expansion(p, start, until, r) ==> StrictlySorted(r)
  {
    if DaysSorted(p.byDay) || p.count == 1 {
      forall start, until, r | Expansion(p, start, until, r) ensures StrictlySorted(r) {
        ExpansionIsOrdered(p, start, until, r);
      }
    } else {
      var i, j := DescentExists(p.byDay);
      var sunday := if p.until.Some? then SundayBefore(p.until.value) else 3;
      hide DaysSorted, StrictlySorted, Kept, DayIndex, At, Prefix;
      var start, end := At(sunday + DayIndex(p.byDay[j]), 0), At(sunday + DayIndex(p.byDay[i]), 0);
      if p.until.Some? {
        InWeekOf(p.until.value, DayIndex(p.byDay[i]));
      }
      DescentKept(p.byDay, p.interval, sunday, i, j);
      var all := Kept(p.byDay, p.interval, start, end, MAX_WEEKS);
      DescentUnsorted(end, start, all);
      PrefixOfCut([end, start], all, Limit(p.count));
      DescentUnsorted(end, start, Cut(all, Limit(p.count)));
      assert EffectiveEnd(p, end) == end;
      assert Expansion(p, start, end, Cut(all, Limit(p.count)));
    }
  }

  lemma PrefixOfCut(a: seq<int>, s: seq<int>, n: nat)
    requires Prefix(a, s) && |a| <= n
    ensures Prefix(a, Cut(s, n))
  {
  }

  /** The Sunday a week before that of `t`. */
  function SundayBefore(t: int): int
  {
    Sunday(t) - 7
  }

  lemma InWeekOf(t: int, d: int)
    requires 0 <= d < 7
    ensures (SundayBefore(t) + 4) % 7 == 0 && At(SundayBefore(t) + d, 0) <= t
  {
    SundayIsSunday(t);
    ClockRange(t);
    DaysApart(SundayBefore(t) + d, DayOf(t) - SundayBefore(t) - d, 0);
    AtClock(DayOf(t), ClockOf(t));
    hide At, DayOf, ClockOf, Whole;
  }

  lemma AtClock(day: int, clock: int)
    ensures At(day, clock) == At(day, 0) + clock
  {
  }

  /** The instants of a pattern without days, one a step. */
  function SeriesOf(p: Pattern, start: int): int -> int
  {
    if p.freq == "MONTHLY" then EveryMonths(start, p.interval)
    else EveryDays(start, if p.freq == "DAILY" then p.interval else 7 * p.interval)
  }

  lemma SeriesIncreases(p: Pattern, start: int)
    ensures Increasing(SeriesOf(p, start)) && SeriesOf(p, start)(0) == start
  {
    DaysIncrease(start, p.interval);
    DaysIncrease(start, 7 * p.interval);
    MonthsIncrease(start, p.interval);
  }

  /** The date of a weekday in the start's week, at the start's clock. */
  function DateInWeek(start: int, weekday: int): int
  {
    At(Sunday(start) + weekday, ClockOf(start))
  }

  /** Of the listed codes, the first whose date in the start's week lies between the start and the end is
      that of the start's weekday. */
  ghost predicate LeadsWeek(byDay: seq<Bytes>, start: int, end: int)
  {
    exists k :: 0 <= k < |byDay| && DayIndex(byDay[k]) == Weekday(start)
                && forall j :: 0 <= j < k ==> !(start <= DateInWeek(start, DayIndex(byDay[j])) <= end)
  }

  /** The source says that the start is always the first instance. It is exactly when it is not after the
      end and, where days are given, is a whole second and its weekday leads its week. */
  lemma StartComesFirst(p: Pattern, start: int, until: int, r: seq<int>)
    requires Supported(p) && Expansion(p, start, until, r)
    ensures (r != [] && r[0] == start) <==>
            && start <= EffectiveEnd(p, until)
            && (ByDays(p) ==> Whole(start) == start && LeadsWeek(p.byDay, start, EffectiveEnd(p, until)))
  {
    var end := EffectiveEnd(p, until);
    if ByDays(p) {
      hide Whole, LeadsWeek, Kept;
      StartLeads(p.byDay, p.interval, start, end);
    } else {
      SeriesIncreases(p, start);
      hide EveryDays, EveryMonths;
      assert Series(r, SeriesOf(p, start), end, Limit(p.count));
    }
  }

  lemma StartLeads(byDay: seq<Bytes>, interval: Interval, start: int, end: int)
    ensures var s := Kept(byDay, interval, start, end, MAX_WEEKS);
            (s != [] && s[0] == start) <==> start <= end && Whole(start) == start && LeadsWeek(byDay, start, end)
  {
    var s, week := Kept(byDay, interval, start, end, MAX_WEEKS), WeekStart(start, interval, 0);
    var first := InWeek(byDay, |byDay|, week, start, end);
    hide Kept, InWeek, WeekStart, Whole, LeadsWeek, FirstInRange;
    PartGrows(byDay, interval, start, end, 0, |byDay|, MAX_WEEKS);
    KeptNone(byDay, interval, start, end);
    assert Prefix(first, s) by {
      assert [] + first == first;
    }
    assert first != [] ==> s[..|first|][0] == s[0];
    InWeekHead(byDay, |byDay|, week, start, end, start);
    LeadsIsFirst(byDay, interval, start, end);
    if start in s {
      StartIsInWeek(byDay, interval, start, end);
    }
  }

  /** The first of the codes whose date is in range has the date `t`. */
  ghost predicate FirstInRange(byDay: seq<Bytes>, n: nat, week: int, start: int, end: int, t: int)
    requires n <= |byDay|
  {
    exists k :: 0 <= k < n && AddDays(week, DayIndex(byDay[k])) == t && start <= t <= end
                && forall j :: 0 <= j < k ==> !(start <= AddDays(week, DayIndex(byDay[j])) <= end)
  }

  lemma {:induction false} InWeekHead(byDay: seq<Bytes>, n: nat, week: int, start: int, end: int, t: int)
    requires n <= |byDay|
    ensures var s := InWeek(byDay, n, week, start, end);
            && (s == [] <==> forall k :: 0 <= k < n ==> !(start <= AddDays(week, DayIndex(byDay[k])) <= end))
            && (s != [] && s[0] == t <==> FirstInRange(byDay, n, week, start, end, t))
  {
    hide AddDays, DayIndex, InWeek;
    if n == 0 {
      InWeekNone(byDay, week, start, end);
    } else {
      hide FirstInRange;
      InWeekHead(byDay, n - 1, week, start, end, t);
      InWeekStep(byDay, n - 1, week, start, end);
      FirstInRangeStep(byDay, n, week, start, end, t);
      assert InWeek(byDay, n - 1, week, start, end) != [] ==>
          InWeek(byDay, n, week, start, end)[0] == InWeek(byDay, n - 1, week, start, end)[0];
    }
  }

  lemma FirstInRangeStep(byDay: seq<Bytes>, n: nat, week: int, start: int, end: int, t: int)
    requires 0 < n <= |byDay|
    ensures FirstInRange(byDay, n, week, start, end, t) <==>
            || FirstInRange(byDay, n - 1, week, start, end, t)
            || (AddDays(week, DayIndex(byDay[n - 1])) == t && start <= t <= end
                && forall j :: 0 <= j < n - 1 ==> !(start <= AddDays(week, DayIndex(byDay[j])) <= end))
  {
    hide AddDays, DayIndex;
  }

  /** On a whole second the start is the date of its own weekday, and of no other. */
  lemma StartSlot(start: int, interval: int, d: int)
    ensures AddDays(WeekStart(start, interval, 0), d) == DateInWeek(start, d)
    ensures DateInWeek(start, d) == start <==> Whole(start) == start && d == Weekday(start)
  {
    ClockRange(start);
    assert interval * 0 == 0;
    DaysApart(Sunday(start), d, ClockOf(start));
    DaysApart(Sunday(start) + d, Weekday(start) - d, ClockOf(start));
    DaysApart(DayOf(start), d - Weekday(start), ClockOf(start));
    WholeClock(DateInWeek(start, d), Sunday(start) + d, ClockOf(start));
    hide At, DayOf, ClockOf, Whole, Weekday, AddDays;
  }

  lemma WholeClock(t: int, day: int, clock: int)
    requires t == At(day, clock) && 0 <= clock < DAY && clock % SECOND == 0
    ensures Whole(t) == t
  {
    OnDay(day, clock);
  }

  lemma LeadsIsFirst(byDay: seq<Bytes>, interval: Interval, start: int, end: int)
    ensures FirstInRange(byDay, |byDay|, WeekStart(start, interval, 0), start, end, start) <==>
            start <= end && Whole(start) == start && LeadsWeek(byDay, start, end)
  {
    forall d: int
      ensures AddDays(WeekStart(start, interval, 0), d) == DateInWeek(start, d)
      ensures DateInWeek(start, d) == start <==> Whole(start) == start && d == Weekday(start)
    {
      StartSlot(start, interval, d);
    }
    hide AddDays, WeekStart, DateInWeek, Whole, Weekday, DayIndex;
  }

  /** A start that is kept is kept in its own week. */
  lemma StartIsInWeek(byDay: seq<Bytes>, interval: Interval, start: int, end: int)
    requires start in Kept(byDay, interval, start, end, MAX_WEEKS)
    ensures InWeek(byDay, |byDay|, WeekStart(start, interval, 0), start, end) != []
  {
    hide Kept, InWeek, Whole, Weekday, DayIndex, AddDays, WeekStart, DateInWeek;
    KeptExactly(byDay, interval, start, end, start);
    StartOnSchedule(byDay, interval, start);
    hide OnSchedule;
    var k :| 0 <= k < |byDay| && DayIndex(byDay[k]) == Weekday(start);
    StartSlot(start, interval, DayIndex(byDay[k]));
    InWeekExactly(byDay, |byDay|, WeekStart(start, interval, 0), start, end, start);
  }

  lemma StartOnSchedule(byDay: seq<Bytes>, interval: Interval, start: int)
    ensures OnSchedule(byDay, interval, start, start) <==> Whole(start) == start && OnDays(byDay, Weekday(start))
  {
    hide Whole, Sunday, ClockOf, Weekday, OnDays;
  }

  /** With the days in week order, being on one of them is enough. */
  lemma SortedDaysLead(byDay: seq<Bytes>, start: int, end: int)
    requires DaysSorted(byDay) && Whole(start) == start
    ensures LeadsWeek(byDay, start, end) <==> OnDays(byDay, Weekday(start))
  {
    hide DayIndex, Weekday, Whole, DateInWeek;
    if OnDays(byDay, Weekday(start)) {
      var k :| 0 <= k < |byDay| && DayIndex(byDay[k]) == Weekday(start);
      forall j | 0 <= j < k ensures DateInWeek(start, DayIndex(byDay[j])) < start {
        EarlierInWeek(start, DayIndex(byDay[j]));
      }
    }
  }

  lemma EarlierInWeek(start: int, d: int)
    requires d < Weekday(start)
    ensures DateInWeek(start, d) < start
  {
    ClockRange(start);
    DaysApart(Sunday(start) + d, Weekday(start) - d, ClockOf(start));
    hide At, DayOf, ClockOf, Whole, AddDays;
  }

  /** From Monday 5 January 1970, FR,MO starts with the Friday and goes back to the Monday, though the
      start is a whole second, on a listed day and not after the end. */
  lemma FridayBeforeMonday(r: seq<int>)
    requires Expansion(Pattern("WEEKLY", 0, None, ["FR", "MO"], 1), 4 * DAY, 8 * DAY, r)
    ensures Prefix([8 * DAY, 4 * DAY], r) && !StrictlySorted(r)
    ensures Whole(4 * DAY) == 4 * DAY && OnDays(["FR", "MO"], Weekday(4 * DAY))
  {
    var p := Pattern("WEEKLY", 0, None, ["FR", "MO"], 1);
    assert ByDays(p);
    hide *;
    MondayFacts();
    WholeList(p, 4 * DAY, 8 * DAY, r);
    FridayMonday(p.byDay, r);
  }

  lemma MondayFacts()
    ensures DayIndex("FR") == 5 && DayIndex("MO") == 1
    ensures At(4, 0) == 4 * DAY && At(8, 0) == 8 * DAY && Whole(4 * DAY) == 4 * DAY
    ensures OnDays(["FR", "MO"], Weekday(4 * DAY))
  {
    var byDay: seq<Bytes> := ["FR", "MO"];
    assert DayIndex(byDay[1]) == Weekday(4 * DAY);
  }

  lemma WholeList(p: Pattern, start: int, end: int, r: seq<int>)
    requires ByDays(p) && p.count == 0 && p.until.None? && p.interval == 1 && Expansion(p, start, end, r)
    ensures r == Cut(Kept(p.byDay, 1, start, end, MAX_WEEKS), 1000)
  {
    hide Kept, Cut;
  }

  lemma FridayMonday(byDay: seq<Bytes>, r: seq<int>)
    requires |byDay| == 2 && DayIndex(byDay[0]) == 5 && DayIndex(byDay[1]) == 1
    requires r == Cut(Kept(byDay, 1, At(4, 0), At(8, 0), MAX_WEEKS), 1000)
    ensures Prefix([At(8, 0), At(4, 0)], r) && !StrictlySorted(r)
  {
    hide Kept, StrictlySorted, At, DayIndex, Prefix, Cut;
    DescentKept(byDay, 1, 3, 0, 1);
    PrefixOfCut([At(8, 0), At(4, 0)], Kept(byDay, 1, At(4, 0), At(8, 0), MAX_WEEKS), 1000);
    DescentUnsorted(At(8, 0), At(4, 0), r);
  }
}
