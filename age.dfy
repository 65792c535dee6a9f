/**
  `calculate_age`: the age on a given day in years, months and days, by
  calendar subtraction with a borrow from the month before, and the total
  number of days since birth. The program reads the clock with
  `date.today()`; here the day is the parameter `today`.
 */
module Age {
  import opened PyDate
  import DateFormat

  /** Whole calendar months from `birth` to `today`; a month is not complete before its day number comes round. */
  function ElapsedMonths(birth: Date, today: Date): int {
    12 * (today.year - birth.year) + (today.month - birth.month) - (if today.day < birth.day then 1 else 0)
  }

  /** The length of the month before the month of `today`; December counts 31 days. */
  function PrevMonthLength(today: Date): int
    requires Valid(today)
  {
    if today.month > 1 then DaysInMonth(today.year, today.month - 1) else DaysInMonth(today.year - 1, 12)
  }

  /**
    The figures the program reports for `birth` on `today`: the whole months
    split into years and months 0..11, the day difference after the borrow,
    and the day count between the two dates. These determine the four
    figures uniquely.
   */
  predicate Describes(birth: Date, today: Date, years: int, months: int, days: int, totalDays: int)
    requires Valid(birth) && Valid(today)
  {
    years * 12 + months == ElapsedMonths(birth, today) && 0 <= months <= 11
    && days == today.day - birth.day + (if today.day < birth.day then PrevMonthLength(today) else 0)
    && totalDays == Ordinal(today) - Ordinal(birth)
  }

  /**
    What the figures mean: the borrowed month has 28 to 31 days, the day
    figure lies in -2..30 (it is negative for a birth on the 31st seen on
    1 March), and the year figure is non-negative exactly when the birth is
    not after `today`, which is exactly when the day count is non-negative.
   */
  lemma DescribedAge(birth: Date, today: Date, years: int, months: int, days: int, totalDays: int)
    requires Valid(birth) && Valid(today)
    requires Describes(birth, today, years, months, days, totalDays)
    ensures 28 <= PrevMonthLength(today) <= 31
    ensures -2 <= days <= 30
    ensures years >= 0 <==> !Precedes(today, birth)
    ensures totalDays >= 0 <==> years >= 0
  {
    OrdinalOrder(today, birth);
    if today.day < birth.day {
      assert days >= 1 - 31 + 28;
    }
  }

  /** Seen on 1 March 2023, a birth on 31 January 2023 is reported as 0 years, 1 month and -2 days. */
  lemma NegativeDays()
    ensures Describes(Date(2023, 1, 31), Date(2023, 3, 1), 0, 1, -2, 29)
  {
  }

  /** Lines 169-186 of the program: the step-by-step subtraction with its two borrows. */
  method Elapsed(birth: Date, today: Date) returns (years: int, months: int, days: int, totalDays: int)
    requires Valid(birth) && Valid(today)
    ensures Describes(birth, today, years, months, days, totalDays)
    ensures -2 <= days <= 30
    ensures years >= 0 <==> !Precedes(today, birth)
  {
    years := today.year - birth.year;
    months := today.month - birth.month;
    days := today.day - birth.day;
    if days < 0 {
      months := months - 1;
      var prevMonth := if today.month > 1 then today.month - 1 else 12;
      var prevYear := if today.month > 1 then today.year else today.year - 1;
      var daysInPrevMonth;
      if prevMonth < 12 {
        var next, first := MakeDate(prevYear, prevMonth + 1, 1), MakeDate(prevYear, prevMonth, 1);
        assert Valid(Date(prevYear, prevMonth + 1, 1)) && Valid(Date(prevYear, prevMonth, 1));
        daysInPrevMonth := Ordinal(next.date) - Ordinal(first.date);
        MonthStep(prevYear, prevMonth);
      } else {
        daysInPrevMonth := 31;
      }
      assert daysInPrevMonth == PrevMonthLength(today);
      days := days + daysInPrevMonth;
    }
    if months < 0 {
      years := years - 1;
      months := months + 12;
    }
    totalDays := Ordinal(today) - Ordinal(birth);
    DescribedAge(birth, today, years, months, days, totalDays);
  }

  /** What `calculate_age` reports. */
  datatype AgeReply =
    | Age(years: int, months: int, days: int, totalDays: int)
    | InvalidFormat  // the ValueError and IndexError the program catches
    | Overflow       // the OverflowError of date(), which the program does not catch

  /** `calculate_age(birth_date)` on the day `today`. */
  method CalculateAge(birthDate: string, today: Date) returns (r: AgeReply)
    requires Valid(today)
    ensures DateFormat.ParseBirth(DateFormat.NormalizeDate(birthDate)).Malformed? <==> r == InvalidFormat
    ensures DateFormat.ParseBirth(DateFormat.NormalizeDate(birthDate)).TooLarge? <==> r == Overflow
    ensures DateFormat.ParseBirth(DateFormat.NormalizeDate(birthDate)).Birth? ==>
      var birth := DateFormat.ParseBirth(DateFormat.NormalizeDate(birthDate)).date;
      r.Age? && Describes(birth, today, r.years, r.months, r.days, r.totalDays)
  {
    var normalized := DateFormat.NormalizeDate(birthDate);
    match DateFormat.ParseBirth(normalized)
    case Malformed => r := InvalidFormat;
    case TooLarge => r := Overflow;
    case Birth(birth) =>
      var years, months, days, totalDays := Elapsed(birth, today);
      r := Age(years, months, days, totalDays);
  }
}
