/**
  The part of Python's `datetime.date` the helpers use: the proleptic
  Gregorian calendar over years 1 to 9999, the constructor `date(y, m, d)`
  with its errors, `toordinal()` (so that `(a - b).days` is the difference of
  two ordinals) and `weekday()`.
 */
module PyDate {

  datatype Date = Date(year: int, month: int, day: int)

  const MinYear := 1
  const MaxYear := 9999

  /** The range of a C `int`, which CPython's constructor demands of each argument. */
  const IntMin := -0x8000_0000
  const IntMax := 0x7FFF_FFFF

  /** A value a C `int` can hold. */
  predicate InCInt(v: int) {
    IntMin <= v <= IntMax
  }

  predicate IsLeap(year: int) {
    year % 4 == 0 && (year % 100 != 0 || year % 400 == 0)
  }

  function DaysInYear(year: int): int {
    if IsLeap(year) then 366 else 365
  }

  function DaysInMonth(year: int, month: int): (n: int)
    requires 1 <= month <= 12
    ensures 28 <= n <= 31
    ensures n == 29 <==> month == 2 && IsLeap(year)
  {
    if month == 2 then (if IsLeap(year) then 29 else 28)
    else [31, 28, 31, 30, 31, 30, 31, 31, 30, 31, 30, 31][month - 1]
  }

  /** The dates `date(y, m, d)` accepts. */
  predicate Valid(d: Date) {
    MinYear <= d.year <= MaxYear && 1 <= d.month <= 12 && 1 <= d.day <= DaysInMonth(d.year, d.month)
  }

  /** Calendar order: `a` comes strictly before `b`. */
  predicate Precedes(a: Date, b: Date) {
    a.year < b.year
    || (a.year == b.year && a.month < b.month)
    || (a.year == b.year && a.month == b.month && a.day < b.day)
  }

  /** The number of days in the years before `year`, as `datetime` counts them. */
  function DaysBeforeYear(year: int): int
    requires year >= 1
  {
    var y := year - 1;
    y * 365 + y / 4 - y / 100 + y / 400
  }

  /** The number of days in the months of `year` before `month`. */
  function DaysBeforeMonth(year: int, month: int): int
    requires 1 <= month <= 12
  {
    [0, 31, 59, 90, 120, 151, 181, 212, 243, 273, 304, 334][month - 1]
    + (if month > 2 && IsLeap(year) then 1 else 0)
  }

  /**
    `d.toordinal()`: 1 January of year 1 is day 1, and `date.max`, 31
    December 9999, is day 3652059.
   */
  function Ordinal(d: Date): (n: int)
    requires Valid(d)
    ensures 1 <= n <= 3652059
  {
    WithinYear(d);
    YearsBefore(d.year, MaxYear + 1);
    DaysBeforeYear(d.year) + DaysBeforeMonth(d.year, d.month) + d.day
  }

  /** `d.weekday()`: Monday is 0 and Sunday is 6. */
  function Weekday(d: Date): (w: int)
    requires Valid(d)
    ensures 0 <= w < 7
  {
    (Ordinal(d) + 6) % 7
  }

  /** What `date(year, month, day)` does: build a date or raise. */
  datatype Construction = Made(date: Date) | ValueError | OverflowError

  function MakeDate(year: int, month: int, day: int): (r: Construction)
    ensures r.Made? <==> Valid(Date(year, month, day))
    ensures r.Made? ==> r.date == Date(year, month, day)
    ensures r.OverflowError? <==> !(InCInt(year) && InCInt(month) && InCInt(day))
  {
    if !(InCInt(year) && InCInt(month) && InCInt(day)) then OverflowError
    else if Valid(Date(year, month, day)) then Made(Date(year, month, day))
    else ValueError
  }

  /** The day after `d`, the last representable day excepted. */
  function NextDay(d: Date): Date
    requires Valid(d) && d != Date(MaxYear, 12, 31)
  {
    if d.day < DaysInMonth(d.year, d.month) then Date(d.year, d.month, d.day + 1)
    else if d.month < 12 then Date(d.year, d.month + 1, 1)
    else Date(d.year + 1, 1, 1)
  }

  /** A year adds its own length to the days before the next one. */
  lemma YearStep(year: int)
    requires year >= 1
    ensures DaysBeforeYear(year + 1) == DaysBeforeYear(year) + DaysInYear(year)
  {
    QuotientStep(year, 4);
    QuotientStep(year, 100);
    QuotientStep(year, 400);
    DivisorChain(year);
  }

  /** Counting multiples of `k` up to `year` adds one exactly when `year` is one. */
  lemma QuotientStep(year: int, k: int)
    requires year >= 1 && (k == 4 || k == 100 || k == 400)
    ensures year / k - (year - 1) / k == (if year % k == 0 then 1 else 0)
  {
    if k == 4 {
      assert year - 1 == 4 * ((year - 1) / 4) + (year - 1) % 4;
    } else if k == 100 {
      assert year - 1 == 100 * ((year - 1) / 100) + (year - 1) % 100;
    } else {
      assert year - 1 == 400 * ((year - 1) / 400) + (year - 1) % 400;
    }
  }

  /** A multiple of 400 is one of 100, and a multiple of 100 is one of 4. */
  lemma DivisorChain(year: int)
    ensures year % 100 == 0 ==> year % 4 == 0
    ensures year % 400 == 0 ==> year % 100 == 0
  {
    if year % 100 == 0 {
      var m := 25 * (year / 100);
      assert year == 4 * m;
    }
    if year % 400 == 0 {
      var m := 4 * (year / 400);
      assert year == 100 * m;
    }
  }

  /** A month adds its own length to the days before the next one; December closes the year. */
  lemma MonthStep(year: int, month: int)
    requires 1 <= month <= 12
    ensures month < 12 ==> DaysBeforeMonth(year, month + 1) == DaysBeforeMonth(year, month) + DaysInMonth(year, month)
    ensures month == 12 ==> DaysBeforeMonth(year, month) + DaysInMonth(year, month) == DaysInYear(year)
  {
  }

  /** The date after `d` is a valid date one ordinal later. */
  lemma OrdinalNextDay(d: Date)
    requires Valid(d) && d != Date(MaxYear, 12, 31)
    ensures Valid(NextDay(d))
    ensures Ordinal(NextDay(d)) == Ordinal(d) + 1
    ensures Weekday(NextDay(d)) == (Weekday(d) + 1) % 7
  {
    var n := NextDay(d);
    if d.day < DaysInMonth(d.year, d.month) {
      assert n == Date(d.year, d.month, d.day + 1);
    } else if d.month < 12 {
      MonthStep(d.year, d.month);
      assert Ordinal(n) == DaysBeforeYear(d.year) + DaysBeforeMonth(d.year, d.month + 1) + 1;
    } else {
      MonthStep(d.year, 12);
      YearStep(d.year);
      assert Ordinal(n) == DaysBeforeYear(d.year + 1) + 1;
    }
    assert Ordinal(n) == Ordinal(d) + 1;
    WeekdayStep(Ordinal(d));
  }

  lemma WeekdayStep(x: int)
    ensures (x + 1 + 6) % 7 == ((x + 6) % 7 + 1) % 7
  {
  }

  lemma {:induction false} MonthsBefore(year: int, m1: int, m2: int)
    requires 1 <= m1 < m2 <= 12
    ensures DaysBeforeMonth(year, m1) + DaysInMonth(year, m1) <= DaysBeforeMonth(year, m2)
    decreases m2 - m1
  {
    MonthStep(year, m1);
    if m1 + 1 < m2 {
      MonthsBefore(year, m1 + 1, m2);
      MonthStep(year, m1 + 1);
    }
  }

  /** Every day of a year lies within that year's length. */
  lemma WithinYear(d: Date)
    requires Valid(d)
    ensures DaysBeforeMonth(d.year, d.month) + d.day <= DaysInYear(d.year)
  {
    MonthStep(d.year, 12);
    if d.month < 12 {
      MonthsBefore(d.year, d.month, 12);
    }
  }

  lemma {:induction false} YearsBefore(y1: int, y2: int)
    requires 1 <= y1 < y2
    ensures DaysBeforeYear(y1) + DaysInYear(y1) <= DaysBeforeYear(y2)
    decreases y2 - y1
  {
    YearStep(y1);
    if y1 + 1 < y2 {
      YearsBefore(y1 + 1, y2);
      YearStep(y1 + 1);
    }
  }

  lemma PrecedesOrdinal(a: Date, b: Date)
    requires Valid(a) && Valid(b) && Precedes(a, b)
    ensures Ordinal(a) < Ordinal(b)
  {
    if a.year < b.year {
      WithinYear(a);
      YearsBefore(a.year, b.year);
    } else if a.month < b.month {
      MonthsBefore(a.year, a.month, b.month);
    }
  }

  /** Ordinals follow the calendar: `a` precedes `b` exactly when its ordinal is smaller. */
  lemma OrdinalOrder(a: Date, b: Date)
    requires Valid(a) && Valid(b)
    ensures Precedes(a, b) <==> Ordinal(a) < Ordinal(b)
    ensures a == b <==> Ordinal(a) == Ordinal(b)
  {
    if Precedes(a, b) {
      PrecedesOrdinal(a, b);
    } else if Precedes(b, a) {
      PrecedesOrdinal(b, a);
    }
  }
}
