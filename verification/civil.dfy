/** Proleptic Gregorian day arithmetic as the ECMAScript Date object does it:
    day numbers count days from 1970-01-01, years use astronomical numbering
    (year 0 exists and is a leap year), and time values are milliseconds. */
module Civil {

  const MsPerDay: int := 86_400_000

  /** The largest magnitude a Date time value may have (TimeClip). */
  const MaxTime: int := 8_640_000_000_000_000

  /** A calendar date. `ValidDate` says when it names a real day. */
  datatype Date = Date(year: int, month: int, day: int)

  predicate IsLeapYear(y: int) {
    y % 4 == 0 && (y % 100 != 0 || y % 400 == 0)
  }

  function DaysInYear(y: int): int {
    if IsLeapYear(y) then 366 else 365
  }

  function DaysInMonth(y: int, m: int): int
    requires 1 <= m <= 12
  {
    if m == 2 then (if IsLeapYear(y) then 29 else 28)
    else if m == 4 || m == 6 || m == 9 || m == 11 then 30
    else 31
  }

  /** Days of year `y` before the first of month `m`; month 13 stands for the
      end of the year. */
  function DaysBeforeMonth(y: int, m: int): int
    requires 1 <= m <= 13
  {
    var common :=
      if m == 1 then 0 else if m == 2 then 31 else if m == 3 then 59
      else if m == 4 then 90 else if m == 5 then 120 else if m == 6 then 151
      else if m == 7 then 181 else if m == 8 then 212 else if m == 9 then 243
      else if m == 10 then 273 else if m == 11 then 304 else if m == 12 then 334
      else 365;
    common + (if IsLeapYear(y) && m > 2 then 1 else 0)
  }

  predicate ValidDate(d: Date) {
    1 <= d.month <= 12 && 1 <= d.day <= DaysInMonth(d.year, d.month)
  }

  /** DayFromYear: the day number of January 1 of year `y`. */
  function DayFromYear(y: int): int {
    365 * (y - 1970) + (y - 1969) / 4 - (y - 1901) / 100 + (y - 1601) / 400
  }

  /** MakeDay for a month in range: the day number of `y`-`m`-`d`. A day past
      the end of the month rolls over into the following month(s). */
  function DaysFromCivil(y: int, m: int, d: int): int
    requires 1 <= m <= 12
  {
    DayFromYear(y) + DaysBeforeMonth(y, m) + d - 1
  }

  lemma MonthStep(y: int, m: int)
    requires 1 <= m <= 12
    ensures DaysBeforeMonth(y, m + 1) == DaysBeforeMonth(y, m) + DaysInMonth(y, m)
  {
  }

  /** Euclidean division is determined by quotient and remainder; stated for
      the three divisors of the leap-year rule. */
  lemma DivModUnique(a: int, d: int, q: int, r: int)
    requires d == 4 || d == 100 || d == 400
    requires 0 <= r < d && a == q * d + r
    ensures a / d == q && a % d == r
  {
    if d == 4 {
      assert a == 4 * q + r;
    } else if d == 100 {
      assert a == 100 * q + r;
    } else {
      assert a == 400 * q + r;
    }
  }

  /** Stepping `a` by one raises `a / d` exactly when `a + 1` is a multiple
      of `d`. */
  lemma FloorStep(a: int, d: int)
    requires d == 4 || d == 100 || d == 400
    ensures (a + 1) / d - a / d == if (a + 1) % d == 0 then 1 else 0
  {
    var q, r := a / d, a % d;
    DivModUnique(a, d, q, r);
    if r == d - 1 {
      DivModUnique(a + 1, d, q + 1, 0);
    } else {
      DivModUnique(a + 1, d, q, r + 1);
    }
  }

  /** Shifting by a multiple of `d` does not change the remainder. */
  lemma ModShift(a: int, d: int, k: int)
    requires d == 4 || d == 100 || d == 400
    ensures (a + k * d) % d == a % d
  {
    DivModUnique(a, d, a / d, a % d);
    DivModUnique(a + k * d, d, a / d + k, a % d);
  }

  /** Consecutive years are DaysInYear apart: the closed form counts leap
      years correctly. */
  lemma DayFromYearStep(y: int)
    ensures DayFromYear(y + 1) == DayFromYear(y) + DaysInYear(y)
  {
    FloorStep(y - 1969, 4);
    FloorStep(y - 1901, 100);
    FloorStep(y - 1601, 400);
    ModShift(y, 4, -492);
    ModShift(y, 100, -19);
    ModShift(y, 400, -4);
  }

  /** The year holding the day that lies `k` days after January 1 of year
      `y`, with that day's offset inside its year. */
  function YearAndDay(y: int, k: int): (r: (int, int))
    ensures 0 <= r.1 < DaysInYear(r.0)
    ensures DayFromYear(r.0) + r.1 == DayFromYear(y) + k
    decreases if k < 0 then 1 else 0, if k < 0 then -k else k
  {
    if k < 0 then
      DayFromYearStep(y - 1);
      YearAndDay(y - 1, k + DaysInYear(y - 1))
    else if k >= DaysInYear(y) then
      DayFromYearStep(y);
      YearAndDay(y + 1, k - DaysInYear(y))
    else
      (y, k)
  }

  /** The month and day-of-month of the `k`-th day (from 0) of year `y`,
      searching from month `m` on. */
  function MonthAndDay(y: int, m: int, k: int): (r: (int, int))
    requires 1 <= m <= 12
    requires DaysBeforeMonth(y, m) <= k < DaysInYear(y)
    ensures m <= r.0 <= 12 && 1 <= r.1 <= DaysInMonth(y, r.0)
    ensures DaysBeforeMonth(y, r.0) + r.1 - 1 == k
    decreases 12 - m
  {
    MonthStep(y, m);
    if k < DaysBeforeMonth(y, m + 1) then (m, k - DaysBeforeMonth(y, m) + 1)
    else MonthAndDay(y, m + 1, k)
  }

  /** The calendar date of day number `n`: a real date whose day number is
      `n`, so DaysFromCivil is its left inverse. */
  function CivilFromDays(n: int): (r: Date)
    ensures ValidDate(r)
    ensures DaysFromCivil(r.year, r.month, r.day) == n
  {
    var guess := 1970 + (n * 400) / 146097;
    var (y, k) := YearAndDay(guess, n - DayFromYear(guess));
    var (m, d) := MonthAndDay(y, 1, k);
    Date(y, m, d)
  }

  /** Day numbers of years are strictly increasing, by at least a year's
      length per year. */
  lemma {:induction false} DayFromYearMono(y1: int, y2: int)
    requires y1 < y2
    ensures DayFromYear(y1) + DaysInYear(y1) <= DayFromYear(y2)
    decreases y2 - y1
  {
    DayFromYearStep(y1);
    if y1 + 1 < y2 {
      DayFromYearMono(y1 + 1, y2);
    }
  }

  /** Two real dates with the same day number are the same date, so
      CivilFromDays is also a right inverse on real dates. */
  lemma CivilInjective(a: Date, b: Date)
    requires ValidDate(a) && ValidDate(b)
    requires DaysFromCivil(a.year, a.month, a.day) == DaysFromCivil(b.year, b.month, b.day)
    ensures a == b
  {
    MonthInYear(a);
    MonthInYear(b);
    if a.year < b.year {
      DayFromYearMono(a.year, b.year);
    } else if b.year < a.year {
      DayFromYearMono(b.year, a.year);
    }
    assert a.year == b.year;
    if a.month != b.month {
      var lo, hi := if a.month < b.month then a else b, if a.month < b.month then b else a;
      MonthsApart(lo.year, lo.month, hi.month);
    }
  }

  /** A real date lies inside its year. */
  lemma MonthInYear(d: Date)
    requires ValidDate(d)
    ensures 0 <= DaysBeforeMonth(d.year, d.month) + d.day - 1 < DaysInYear(d.year)
  {
  }

  /** Later months start after earlier months end. */
  lemma MonthsApart(y: int, m1: int, m2: int)
    requires 1 <= m1 < m2 <= 12
    ensures DaysBeforeMonth(y, m1) + DaysInMonth(y, m1) <= DaysBeforeMonth(y, m2)
  {
  }

  lemma CivilRoundTrip(d: Date)
    requires ValidDate(d)
    ensures CivilFromDays(DaysFromCivil(d.year, d.month, d.day)) == d
  {
    var r := CivilFromDays(DaysFromCivil(d.year, d.month, d.day));
    CivilInjective(r, d);
  }
}
