/** The start of a user's quota period: the most recent reset day, on the Gregorian calendar
    in UTC.  Days are counted from 1 January of year 1. */
module ResetPeriod {
  datatype Date = Date(year: nat, month: nat, day: nat)

  predicate IsLeap(y: nat) { y % 4 == 0 && (y % 100 != 0 || y % 400 == 0) }

  function DaysIn(y: nat, m: nat): nat
    requires 1 <= m <= 12
  {
    if m == 2 then (if IsLeap(y) then 29 else 28)
    else if m == 4 || m == 6 || m == 9 || m == 11 then 30
    else 31
  }

  predicate IsDate(d: Date) { d.year >= 1 && 1 <= d.month <= 12 && 1 <= d.day <= DaysIn(d.year, d.month) }

  /** Days before a month of a year. */
  function MonthStart(y: nat, m: nat): nat
    requires y >= 1 && 1 <= m <= 12
    decreases y, m
  {
    if m > 1 then MonthStart(y, m - 1) + DaysIn(y, m - 1)
    else if y == 1 then 0
    else MonthStart(y - 1, 12) + 31
  }

  function DayNumber(d: Date): nat
    requires IsDate(d)
  {
    MonthStart(d.year, d.month) + d.day - 1
  }

  const SECONDS: nat := 86400

  /** A point in time: a date and the seconds since its midnight. */
  datatype Time = Time(date: Date, second: nat)

  predicate IsTime(t: Time) { IsDate(t.date) && t.second < SECONDS }

  function Unix(t: Time): nat
    requires IsTime(t)
  {
    DayNumber(t.date) * SECONDS + t.second
  }

  function Midnight(d: Date): Time { Time(d, 0) }

  /** The order of dates by year, month and day. */
  predicate Before(a: Date, b: Date) {
    a.year < b.year || (a.year == b.year && (a.month < b.month || (a.month == b.month && a.day < b.day)))
  }

  lemma {:induction false} MonthsGrow(y: nat, m: nat, y': nat, m': nat)
    requires y >= 1 && 1 <= m <= 12 && 1 <= m' <= 12
    requires y < y' || (y == y' && m < m')
    ensures MonthStart(y, m) + DaysIn(y, m) <= MonthStart(y', m')
    decreases y', m'
  {
    if m' > 1 {
      if !(y == y' && m == m' - 1) { MonthsGrow(y, m, y', m' - 1); }
    } else if !(y == y' - 1 && m == 12) {
      MonthsGrow(y, m, y' - 1, 12);
    }
  }

  /** Day numbers follow the calendar order. */
  lemma DatesGrow(a: Date, b: Date)
    requires IsDate(a) && IsDate(b) && Before(a, b)
    ensures DayNumber(a) < DayNumber(b)
  {
    if a.year != b.year || a.month != b.month { MonthsGrow(a.year, a.month, b.year, b.month); }
  }

  // ---------- what the handler computes ----------

  /** time.Date for a day of at most 31: an overlong day runs into the next month. */
  function Normalized(y: nat, m: nat, day: nat): Date
    requires 1 <= m <= 12
  {
    if day <= DaysIn(y, m) then Date(y, m, day)
    else if m == 12 then Date(y + 1, 1, day - 31)
    else Date(y, m + 1, day - DaysIn(y, m))
  }

  /** now.AddDate(0, -1, 0) */
  function LastMonth(d: Date): Date
    requires IsDate(d) && d.year > 1
  {
    if d.month == 1 then Normalized(d.year - 1, 12, d.day) else Normalized(d.year, d.month - 1, d.day)
  }

  function ClampDay(resetDay: int): (r: nat)
    ensures 1 <= r <= 31 && (1 <= resetDay <= 31 ==> r == resetDay)
    ensures (resetDay < 1 ==> r == 1) && (resetDay > 31 ==> r == 31)
  {
    if resetDay < 1 then 1 else if resetDay > 31 then 31 else resetDay
  }

  lemma NormalizedIsDate(y: nat, m: nat, day: nat)
    requires y >= 1 && 1 <= m <= 12 && 1 <= day <= 31
    ensures IsDate(Normalized(y, m, day))
  {
  }

  function PeriodStart(now: Time, resetDay: int): (start: Time)
    requires IsTime(now) && now.date.year > 1
    ensures IsTime(start)
  {
    var r := ClampDay(resetDay);
    if now.date.day < r then
      NormalizedIsDate(if now.date.month == 1 then now.date.year - 1 else now.date.year,
                       if now.date.month == 1 then 12 else now.date.month - 1, now.date.day);
      var last := LastMonth(now.date);
      NormalizedIsDate(last.year, last.month, r);
      Midnight(Normalized(last.year, last.month, r))
    else
      NormalizedIsDate(now.date.year, now.date.month, r);
      Midnight(Normalized(now.date.year, now.date.month, r))
  }

  // ---------- what it means ----------

  lemma UnixOrder(a: Time, b: Time)
    requires IsTime(a) && IsTime(b)
    ensures DayNumber(a.date) < DayNumber(b.date) ==> Unix(a) < Unix(b)
    ensures Unix(a) <= Unix(b) ==> DayNumber(a.date) <= DayNumber(b.date)
  {
  }

  lemma SameOrLater(a: Date, b: Date)
    requires IsDate(a) && IsDate(b) && !Before(b, a)
    ensures DayNumber(a) <= DayNumber(b)
  {
    if a != b {
      assert Before(a, b);
      DatesGrow(a, b);
    }
  }

  lemma NotBefore(a: Time, b: Time)
    requires IsTime(a) && IsTime(b) && Unix(a) <= Unix(b)
    ensures !Before(b.date, a.date)
  {
    UnixOrder(a, b);
    if Before(b.date, a.date) { DatesGrow(b.date, a.date); }
  }

  function PreviousDays(d: Date): nat
    requires IsDate(d) && d.year > 1
  {
    if d.month == 1 then 31 else DaysIn(d.year, d.month - 1)
  }

  /** The reset day has come this month, or it exists in the month before: always so for reset
      days 1 to 28. */
  predicate DayExists(now: Time, resetDay: int)
    requires IsTime(now) && now.date.year > 1
  {
    ClampDay(resetDay) <= now.date.day || ClampDay(resetDay) <= PreviousDays(now.date)
  }

  lemma EarlyDaysExist(now: Time, resetDay: int)
    requires IsTime(now) && now.date.year > 1 && resetDay <= 28
    ensures DayExists(now, resetDay)
  {
  }

  /** For every reset day the start is a midnight less than 32 days back; it is at or before now
      and on that day of month exactly when the day exists in this month so far or the last. */
  lemma StartIsRecent(now: Time, resetDay: int)
    requires IsTime(now) && now.date.year > 1
    ensures var s := PeriodStart(now, resetDay);
      && s.second == 0 && Unix(now) < Unix(s) + 32 * SECONDS
      && (Unix(s) <= Unix(now) && s.date.day == ClampDay(resetDay) <==> DayExists(now, resetDay))
  {
    var s := PeriodStart(now, resetDay);
    if Before(s.date, now.date) {
      DatesGrow(s.date, now.date);
    } else if Before(now.date, s.date) {
      DatesGrow(now.date, s.date);
    }
    if s.date.month != now.date.month {
      assert DayNumber(now.date) == DayNumber(s.date) + DaysIn(s.date.year, s.date.month) - s.date.day + now.date.day;
    }
  }

  /** Where the day exists, the start is the latest such midnight. */
  lemma StartIsLatest(now: Time, resetDay: int, other: Date)
    requires IsTime(now) && now.date.year > 1 && DayExists(now, resetDay)
    requires IsDate(other) && other.day == ClampDay(resetDay) && Unix(Midnight(other)) <= Unix(now)
    ensures Unix(Midnight(other)) <= Unix(PeriodStart(now, resetDay))
  {
    var s := PeriodStart(now, resetDay);
    NotBefore(Midnight(other), now);
    assert !Before(s.date, other);
    SameOrLater(other, s.date);
  }

  lemma StartsInOrder(now: Time, later: Time, resetDay: int)
    requires IsTime(now) && IsTime(later) && now.date.year > 1 && later.date.year > 1
    requires !Before(later.date, now.date)
    ensures !Before(PeriodStart(later, resetDay).date, PeriodStart(now, resetDay).date)
  {
    hide MonthStart, Unix;
  }

  /** For every reset day it never moves backwards as time goes on. */
  lemma StartNeverMovesBack(now: Time, later: Time, resetDay: int)
    requires IsTime(now) && IsTime(later) && now.date.year > 1 && later.date.year > 1
    requires Unix(now) <= Unix(later)
    ensures Unix(PeriodStart(now, resetDay)) <= Unix(PeriodStart(later, resetDay))
  {
    NotBefore(now, later);
    StartsInOrder(now, later, resetDay);
    SameOrLater(PeriodStart(now, resetDay).date, PeriodStart(later, resetDay).date);
  }

  /** For every reset day: the start lies in the future exactly when the reset day has not come
      this month and the month before is too short - for today's day of month, so that the
      handler never leaves this month, or for the reset day, so that it runs past today. */
  lemma FutureStartExactly(now: Time, resetDay: int)
    requires IsTime(now) && now.date.year > 1
    ensures var r, d, prev := ClampDay(resetDay), now.date.day, PreviousDays(now.date);
      Unix(PeriodStart(now, resetDay)) > Unix(now) <==> d < r && (d > prev || r - prev > d)
  {
    var s := PeriodStart(now, resetDay);
    var r := ClampDay(resetDay);
    if Before(s.date, now.date) {
      DatesGrow(s.date, now.date);
    } else if Before(now.date, s.date) {
      DatesGrow(now.date, s.date);
      UnixOrder(now, s);
    }
    UnixOrder(s, now);
  }

  /** Only reset days 30 and 31 can give a start in the future. */
  lemma StartNotFuture(now: Time, resetDay: int)
    requires IsTime(now) && now.date.year > 1 && resetDay <= 29
    ensures Unix(PeriodStart(now, resetDay)) <= Unix(now)
  {
    FutureStartExactly(now, resetDay);
  }

  /** A reset day of 31 seen on 30 March: the computed start is the day after. */
  lemma FutureStartExample()
    ensures var now := Time(Date(2025, 3, 30), 0);
      IsTime(now) && PeriodStart(now, 31) == Midnight(Date(2025, 3, 31)) && Unix(PeriodStart(now, 31)) > Unix(now)
  {
    FutureStartExactly(Time(Date(2025, 3, 30), 0), 31);
  }
}
