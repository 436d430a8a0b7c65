/** Calendar dates as the views use them: the `YYYY-MM-DD` day a task is
    dated, the day before it (`setDate(getDate() - 1)`), the last seven days,
    weekdays (`getDay`) and instants (`toISOString` / `getTime`). Dates are
    proleptic Gregorian, read in a single time zone. */
module Dates {

  /** A calendar day; `month` is 1..12 as in the `MM` of `YYYY-MM-DD`. */
  datatype Date = Date(year: int, month: int, day: int)

  predicate IsLeapYear(y: int)
  {
    (y % 4 == 0 && y % 100 != 0) || y % 400 == 0
  }

  /** `new Date(y, m, 0).getDate()` for the 1-based month `m`. */
  function DaysInMonth(y: int, m: int): (n: int)
    requires 1 <= m <= 12
    ensures 28 <= n <= 31
    ensures n == 29 <==> m == 2 && IsLeapYear(y)
  {
    if m == 2 then (if IsLeapYear(y) then 29 else 28)
    else if m == 4 || m == 6 || m == 9 || m == 11 then 30
    else 31
  }

  /** A day that exists in the calendar. */
  predicate Valid(d: Date)
  {
    1 <= d.month <= 12 && 1 <= d.day <= DaysInMonth(d.year, d.month)
  }

  function YearLength(y: int): int
  {
    if IsLeapYear(y) then 366 else 365
  }

  /** Days of the year `y` before the first of month `m`. */
  function DaysBeforeMonth(y: int, m: int): int
    requires 1 <= m <= 12
  {
    [0, 31, 59, 90, 120, 151, 181, 212, 243, 273, 304, 334][m - 1]
      + (if m > 2 && IsLeapYear(y) then 1 else 0)
  }

  /** Leap years in the years up to and including `x` (counting from year 0). */
  function LeapsThrough(x: int): int
  {
    x / 4 - x / 100 + x / 400
  }

  /** Days from 1970-01-01 to the first of January of `y` (negative before 1970). */
  function DaysBeforeYear(y: int): int
  {
    365 * (y - 1970) + LeapsThrough(y - 1) - LeapsThrough(1969)
  }

  /** Days since 1970-01-01: the `getTime()` of the day's midnight divided by
      one day's milliseconds. */
  function DayNumber(d: Date): int
    requires Valid(d)
  {
    DaysBeforeYear(d.year) + DaysBeforeMonth(d.year, d.month) + d.day - 1
  }

  /** Consecutive first-of-January day numbers are one year's length apart. */
  lemma DaysBeforeNextYear(y: int)
    ensures DaysBeforeYear(y + 1) == DaysBeforeYear(y) + YearLength(y)
  {
    LeapsStep(y);
  }

  /** `LeapsThrough` steps up by one exactly at a leap year. */
  lemma LeapsStep(y: int)
    ensures LeapsThrough(y) - LeapsThrough(y - 1) == (if IsLeapYear(y) then 1 else 0)
  {
    DivStep(y, 4);
    DivStep(y, 100);
    DivStep(y, 400);
    if y % 400 == 0 {
      DivOf(y, 100, 4 * (y / 400), 0);
      DivOf(y, 4, 100 * (y / 400), 0);
    } else if y % 100 == 0 {
      DivOf(y, 4, 25 * (y / 100), 0);
    }
  }

  /** The quotient by `k` steps up by one exactly at multiples of `k`. */
  lemma DivStep(y: int, k: int)
    requires k > 0
    ensures y / k - (y - 1) / k == (if y % k == 0 then 1 else 0)
  {
    var q := y / k;
    var r := y % k;
    if r == 0 {
      DivOf(y - 1, k, q - 1, k - 1);
    } else {
      DivOf(y - 1, k, q, r - 1);
    }
  }

  /** The Euclidean quotient is the unique `q` with a remainder in `[0, k)`. */
  lemma DivOf(a: int, k: int, q: int, r: int)
    requires k > 0 && a == k * q + r && 0 <= r < k
    ensures a / k == q && a % k == r
  {
    var q0 := a / k;
    if q0 > q {
      MulLe(k, q + 1, q0);
    } else if q0 < q {
      MulLe(k, q0 + 1, q);
    }
  }

  /** The day after `d`. */
  function Next(d: Date): (n: Date)
    requires Valid(d)
    ensures Valid(n)
  {
    if d.day < DaysInMonth(d.year, d.month) then Date(d.year, d.month, d.day + 1)
    else if d.month < 12 then Date(d.year, d.month + 1, 1)
    else Date(d.year + 1, 1, 1)
  }

  /** The day before `d`: `setDate(getDate() - 1)`. */
  function Prev(d: Date): (p: Date)
    requires Valid(d)
    ensures Valid(p)
  {
    if d.day > 1 then Date(d.year, d.month, d.day - 1)
    else if d.month > 1 then Date(d.year, d.month - 1, DaysInMonth(d.year, d.month - 1))
    else Date(d.year - 1, 12, 31)
  }

  /** `Prev` and `Next` undo each other. */
  lemma PrevNext(d: Date)
    requires Valid(d)
    ensures Next(Prev(d)) == d && Prev(Next(d)) == d
  {
  }

  /** The day after is one day number later. */
  lemma DayNumberNext(d: Date)
    requires Valid(d)
    ensures DayNumber(Next(d)) == DayNumber(d) + 1
  {
    if d.day == DaysInMonth(d.year, d.month) && d.month == 12 {
      DaysBeforeNextYear(d.year);
    }
  }

  /** The day before is one day number earlier. */
  lemma DayNumberPrev(d: Date)
    requires Valid(d)
    ensures DayNumber(Prev(d)) == DayNumber(d) - 1
  {
    PrevNext(d);
    DayNumberNext(Prev(d));
  }

  /** `getDay()`: 0 for Sunday .. 6 for Saturday; 1970-01-01 was a Thursday. */
  function Weekday(d: Date): (w: int)
    requires Valid(d)
    ensures 0 <= w < 7
  {
    (DayNumber(d) + 4) % 7
  }

  /** Weekdays advance by one, wrapping from Saturday to Sunday. */
  lemma WeekdayNext(d: Date)
    requires Valid(d)
    ensures Weekday(Next(d)) == (Weekday(d) + 1) % 7
  {
    DayNumberNext(d);
    ModSevenSucc(DayNumber(d) + 4);
  }

  /** The day `k` days before `d`. */
  function DaysAgo(d: Date, k: nat): (r: Date)
    requires Valid(d)
    ensures Valid(r)
    ensures DayNumber(r) == DayNumber(d) - k
    decreases k
  {
    if k == 0 then d
    else
      var p := DaysAgo(d, k - 1);
      DayNumberPrev(p);
      Prev(p)
  }

  /** `getLast7Days()`: the seven days ending with `today`, oldest first. */
  function Last7Days(today: Date): (days: seq<Date>)
    requires Valid(today)
    ensures |days| == 7 && days[6] == today
    ensures forall i :: 0 <= i < 7 ==> Valid(days[i]) && DayNumber(days[i]) == DayNumber(today) - (6 - i)
  {
    seq(7, i requires 0 <= i < 7 => DaysAgo(today, 6 - i))
  }

  /** Consecutive entries of the last seven days are consecutive days, and no
      day appears twice. */
  lemma Last7DaysConsecutive(today: Date)
    requires Valid(today)
    ensures forall i :: 0 <= i < 6 ==> Next(Last7Days(today)[i]) == Last7Days(today)[i + 1]
    ensures forall i, j :: 0 <= i < j < 7 ==> Last7Days(today)[i] != Last7Days(today)[j]
  {
    var days := Last7Days(today);
    forall i | 0 <= i < 6 ensures Next(days[i]) == days[i + 1] {
      assert days[i] == Prev(days[i + 1]);
      PrevNext(days[i + 1]);
    }
  }

  /** Milliseconds in a day and in a week. */
  const DayMs: nat := 1000 * 60 * 60 * 24
  const WeekMs: nat := DayMs * 7

  /** A moment: its calendar day and the milliseconds elapsed since that day's
      midnight (the `T…Z` part of an ISO string). */
  datatype Instant = Instant(date: Date, ms: int)

  predicate ValidInstant(t: Instant)
  {
    Valid(t.date) && 0 <= t.ms < DayMs
  }

  /** `getTime()`: milliseconds since 1970-01-01T00:00:00. */
  function Time(t: Instant): int
    requires ValidInstant(t)
  {
    DayNumber(t.date) * DayMs + t.ms
  }

  /** Earlier days are earlier times, whatever the time of day. */
  lemma TimeOrdersDays(a: Instant, b: Instant)
    requires ValidInstant(a) && ValidInstant(b)
    requires DayNumber(a.date) < DayNumber(b.date)
    ensures Time(a) < Time(b)
  {
  }

  /** `getWeekNumber(date)`: whole weeks elapsed since the first of January of
      the date's year. */
  function WeekNumber(t: Instant): (w: int)
    requires ValidInstant(t)
    ensures 0 <= w <= 52
  {
    var start := Date(t.date.year, 1, 1);
    var elapsed := DayNumber(t.date) - DayNumber(start);
    assert elapsed == DaysBeforeMonth(t.date.year, t.date.month) + t.date.day - 1;
    assert 0 <= elapsed <= 365;
    assert 0 <= elapsed * DayMs + t.ms < 366 * DayMs;
    assert 366 * DayMs < 53 * WeekMs;
    (elapsed * DayMs + t.ms) / WeekMs
  }

  /** Within one year, a later instant never has a smaller week number. */
  lemma WeekNumberMonotone(a: Instant, b: Instant)
    requires ValidInstant(a) && ValidInstant(b)
    requires a.date.year == b.date.year && Time(a) <= Time(b)
    ensures WeekNumber(a) <= WeekNumber(b)
  {
    var start := DayNumber(Date(a.date.year, 1, 1)) * DayMs;
    assert (DayNumber(a.date) - DayNumber(Date(a.date.year, 1, 1))) * DayMs + a.ms == Time(a) - start;
    assert (DayNumber(b.date) - DayNumber(Date(b.date.year, 1, 1))) * DayMs + b.ms == Time(b) - start;
    DivMonotone(Time(a) - start, Time(b) - start, WeekMs);
  }

  lemma DivMonotone(x: int, y: int, k: int)
    requires 0 < k && x <= y
    ensures x / k <= y / k
  {
    var qx, qy := x / k, y / k;
    assert x == k * qx + x % k && y == k * qy + y % k;
    if qx > qy {
      MulLe(k, qy + 1, qx);
    }
  }

  lemma MulLe(k: int, a: int, b: int)
    requires 0 < k && a <= b
    ensures k * a <= k * b
  {
  }

  /** Adding one steps a remainder modulo 7 forward by one, wrapping at 7. */
  lemma ModSevenSucc(x: int)
    ensures (x + 1) % 7 == (x % 7 + 1) % 7
  {
    var q, r := x / 7, x % 7;
    assert x == 7 * q + r && 0 <= r < 7;
    if r < 6 {
      assert x + 1 == 7 * q + (r + 1);
    } else {
      assert x + 1 == 7 * (q + 1) + 0;
    }
  }
}
