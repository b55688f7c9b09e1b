/**
 * The proleptic Gregorian calendar of Python's naive `datetime`, for instants
 * counted in whole seconds from 0001-01-01 00:00:00. Day 0 of that count is
 * Python's ordinal 1, a Monday.
 */
module Civil {

  const SecondsPerDay: nat := 86400

  /** `date.max.toordinal()`: the days from 0001-01-01 through 9999-12-31. */
  const MaxDays: nat := 3652059

  /** An instant a `datetime` can hold (years 1 to 9999); outside it Python raises OverflowError. */
  predicate InRange(t: int) { 0 <= t < MaxDays * SecondsPerDay }

  predicate IsLeap(y: int) { y % 4 == 0 && (y % 100 != 0 || y % 400 == 0) }

  function DaysInYear(y: int): nat { if IsLeap(y) then 366 else 365 }

  function DaysInMonth(y: int, m: int): (n: nat)
    requires 1 <= m <= 12
    ensures 28 <= n <= 31
    ensures n == 29 <==> m == 2 && IsLeap(y)
  {
    if m == 2 then (if IsLeap(y) then 29 else 28)
    else if m == 4 || m == 6 || m == 9 || m == 11 then 30
    else 31
  }

  /** The days of year `y` before the first of month `m` (13 stands for the next year). */
  function DaysBeforeMonth(y: int, m: int): nat
    requires 1 <= m <= 13
  {
    if m == 1 then 0 else DaysBeforeMonth(y, m - 1) + DaysInMonth(y, m - 1)
  }

  /** The twelve months make up the year. */
  lemma TwelveMonths(y: int)
    ensures DaysBeforeMonth(y, 13) == DaysInYear(y)
  {
    var f := DaysInMonth(y, 2);
    assert DaysBeforeMonth(y, 2) == 31;
    assert DaysBeforeMonth(y, 3) == 31 + f;
    assert DaysBeforeMonth(y, 4) == 62 + f;
    assert DaysBeforeMonth(y, 5) == 92 + f;
    assert DaysBeforeMonth(y, 6) == 123 + f;
    assert DaysBeforeMonth(y, 7) == 153 + f;
    assert DaysBeforeMonth(y, 8) == 184 + f;
    assert DaysBeforeMonth(y, 9) == 215 + f;
    assert DaysBeforeMonth(y, 10) == 245 + f;
    assert DaysBeforeMonth(y, 11) == 276 + f;
    assert DaysBeforeMonth(y, 12) == 306 + f;
    assert DaysBeforeMonth(y, 13) == 337 + f;
  }

  lemma {:induction false} MonthsGrow(y: int, m: int, n: int)
    requires 1 <= m <= n <= 13
    ensures DaysBeforeMonth(y, m) <= DaysBeforeMonth(y, n)
    ensures m < n ==> DaysBeforeMonth(y, m) + DaysInMonth(y, m) <= DaysBeforeMonth(y, n)
    decreases n - m
  {
    if m < n {
      MonthsGrow(y, m + 1, n);
    }
  }

  /** Python's `_days_before_year`: the days from 0001-01-01 to the first of January of `y`. */
  function DaysBeforeYear(y: int): int
  {
    var p := y - 1;
    365 * p + p / 4 - p / 100 + p / 400
  }

  /** Division by a positive divisor has one quotient and one remainder. */
  lemma DivUnique(n: int, k: int, q: int, r: int)
    requires k > 0 && n == q * k + r && 0 <= r < k
    ensures n / k == q && n % k == r
  {
    var q', r' := n / k, n % k;
    assert (q - q') * k == r' - r;
    if q > q' {
      MulAtLeast(q - q', k);
    } else if q < q' {
      MulAtLeast(q' - q, k);
    }
  }

  lemma {:induction false} MulAtLeast(a: int, k: int)
    requires a >= 1 && k > 0
    ensures a * k >= k
    decreases a
  {
    if a > 1 {
      MulAtLeast(a - 1, k);
      assert a * k == (a - 1) * k + k;
    }
  }

  lemma DivStep(p: int, k: int)
    requires k > 0
    ensures (p + 1) / k == p / k + (if (p + 1) % k == 0 then 1 else 0)
  {
    var q, r := p / k, p % k;
    if r == k - 1 {
      DivUnique(p + 1, k, q + 1, 0);
    } else {
      DivUnique(p + 1, k, q, r + 1);
    }
  }

  lemma NextYear(y: int)
    ensures DaysBeforeYear(y + 1) == DaysBeforeYear(y) + DaysInYear(y)
  {
    DivStep(y - 1, 4);
    DivStep(y - 1, 100);
    DivStep(y - 1, 400);
  }

  lemma {:induction false} YearsGrow(y: int, z: int)
    requires y <= z
    ensures DaysBeforeYear(y) <= DaysBeforeYear(z)
    ensures y < z ==> DaysBeforeYear(y) + DaysInYear(y) <= DaysBeforeYear(z)
    decreases z - y
  {
    if y < z {
      NextYear(y);
      YearsGrow(y + 1, z);
    }
  }

  /** The year holding day `d` counted from the first of January of `y`, and that day's index in its year. */
  function YearWalk(d: nat, y: int): (r: (int, nat))
    ensures r.0 >= y && r.1 < DaysInYear(r.0)
    ensures DaysBeforeYear(r.0) + r.1 == DaysBeforeYear(y) + d
    decreases d
  {
    if d < DaysInYear(y) then (y, d)
    else
      NextYear(y);
      YearWalk(d - DaysInYear(y), y + 1)
  }

  /** The month holding day `doy` counted from the first of month `m` of `y`, and the day's index in it. */
  function MonthWalk(doy: nat, y: int, m: int): (r: (int, nat))
    requires 1 <= m <= 12 && DaysBeforeMonth(y, m) + doy < DaysInYear(y)
    ensures m <= r.0 <= 12 && r.1 < DaysInMonth(y, r.0)
    ensures DaysBeforeMonth(y, r.0) + r.1 == DaysBeforeMonth(y, m) + doy
    decreases 12 - m
  {
    if doy < DaysInMonth(y, m) then (m, doy)
    else
      TwelveMonths(y);
      MonthWalk(doy - DaysInMonth(y, m), y, m + 1)
  }

  /** The fields of a naive `datetime`; `weekday` is Python's `weekday()`, Monday 0 to Sunday 6. */
  datatype DateTime = DateTime(year: int, month: int, day: int, hour: int, minute: int, second: int, weekday: int)

  /** The day count, from 0001-01-01, of a calendar date. */
  function DayNumber(y: int, m: int, d: int): int
    requires 1 <= m <= 12
  {
    DaysBeforeYear(y) + DaysBeforeMonth(y, m) + d - 1
  }

  /** The fields form a real date and time, and the weekday is the one that date falls on. */
  predicate Valid(dt: DateTime) {
    && dt.year >= 1 && 1 <= dt.month <= 12 && 1 <= dt.day <= DaysInMonth(dt.year, dt.month)
    && 0 <= dt.hour < 24 && 0 <= dt.minute < 60 && 0 <= dt.second < 60
    && dt.weekday == DayNumber(dt.year, dt.month, dt.day) % 7
  }

  /** The instant a valid `datetime` denotes. */
  function ToInstant(dt: DateTime): int
    requires 1 <= dt.month <= 12
  {
    DayNumber(dt.year, dt.month, dt.day) * SecondsPerDay + dt.hour * 3600 + dt.minute * 60 + dt.second
  }

  /** The `datetime` at instant `t`: what Python shows for `datetime.min + timedelta(seconds=t)`. */
  function FromInstant(t: int): (dt: DateTime)
    requires t >= 0
    ensures Valid(dt)
    ensures ToInstant(dt) == t
  {
    var days := t / SecondsPerDay;
    var secs := t % SecondsPerDay;
    var (y, doy) := YearWalk(days, 1);
    TwelveMonths(y);
    var (m, d) := MonthWalk(doy, y, 1);
    DateTime(y, m, d + 1, secs / 3600, secs / 60 % 60, secs % 60, days % 7)
  }

  /** The `.year` of the `datetime` at instant `t` (see `YearOfInstant`). */
  function YearOf(t: int): int
    requires t >= 0
  {
    YearWalk(t / SecondsPerDay, 1).0
  }

  lemma YearOfInstant(t: int)
    requires t >= 0
    ensures YearOf(t) == FromInstant(t).year
  {
  }

  /** A date's day count lies inside its year. */
  lemma DayInYear(y: int, m: int, d: int)
    requires 1 <= m <= 12 && 1 <= d <= DaysInMonth(y, m)
    ensures DaysBeforeYear(y) <= DayNumber(y, m, d) < DaysBeforeYear(y) + DaysInYear(y)
  {
    MonthsGrow(y, m, 13);
    TwelveMonths(y);
  }

  /** Two valid dates with the same day count are the same date. */
  lemma DayNumberInjective(a: DateTime, b: DateTime)
    requires Valid(a) && Valid(b)
    requires DayNumber(a.year, a.month, a.day) == DayNumber(b.year, b.month, b.day)
    ensures a.year == b.year && a.month == b.month && a.day == b.day
  {
    DayInYear(a.year, a.month, a.day);
    DayInYear(b.year, b.month, b.day);
    if a.year < b.year {
      YearsGrow(a.year, b.year);
    } else if b.year < a.year {
      YearsGrow(b.year, a.year);
    }
    if a.month < b.month {
      MonthsGrow(a.year, a.month, b.month);
    } else if b.month < a.month {
      MonthsGrow(a.year, b.month, a.month);
    }
  }

  /** Reading a valid `datetime` back from its instant gives it again. */
  lemma FromToInstant(dt: DateTime)
    requires Valid(dt)
    ensures ToInstant(dt) >= 0
    ensures FromInstant(ToInstant(dt)) == dt
  {
    YearsGrow(1, dt.year);
    var t := ToInstant(dt);
    var e := FromInstant(t);
    var n := DayNumber(dt.year, dt.month, dt.day);
    var secs := dt.hour * 3600 + dt.minute * 60 + dt.second;
    assert t == n * SecondsPerDay + secs && 0 <= secs < SecondsPerDay;
    var en := DayNumber(e.year, e.month, e.day);
    var esecs := e.hour * 3600 + e.minute * 60 + e.second;
    assert t == en * SecondsPerDay + esecs && 0 <= esecs < SecondsPerDay;
    assert n == en;
    DayNumberInjective(dt, e);
  }

  /** Python's `dt.replace(day=1).weekday()`: the weekday of the first of the month. */
  function FirstWeekday(dt: DateTime): int
  {
    (dt.weekday - (dt.day - 1)) % 7
  }

  /** The first of a valid date's month is a valid date in the same month whose weekday is `FirstWeekday`. */
  lemma FirstOfMonth(dt: DateTime)
    requires Valid(dt)
    ensures Valid(DateTime(dt.year, dt.month, 1, dt.hour, dt.minute, dt.second, FirstWeekday(dt)))
  {
    var n := DayNumber(dt.year, dt.month, dt.day);
    assert DayNumber(dt.year, dt.month, 1) == n - (dt.day - 1);
    ModShift(n, dt.day - 1);
  }

  lemma ModShift(a: int, b: int)
    ensures (a % 7 - b) % 7 == (a - b) % 7
  {
    var q := a / 7;
    assert a - b == (a % 7 - b) + 7 * q;
  }
}
