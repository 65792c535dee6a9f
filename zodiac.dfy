/**
  `get_zodiac_sign`: the sun sign of a birth date, found by scanning a fixed
  table of twelve month/day ranges and taking the first one that matches.
 */
module Zodiac {
  import opened PyStr
  import DateFormat

  datatype Sign =
    | Aquarius | Pisces | Aries | Taurus | Gemini | Cancer
    | Leo | Virgo | Libra | Scorpio | Sagittarius | Capricorn

  /** The label the program reports for each sign. */
  function Label(s: Sign): string {
    match s
    case Aquarius => "Vodnář ♒"
    case Pisces => "Ryby ♓"
    case Aries => "Beran ♈"
    case Taurus => "Býk ♉"
    case Gemini => "Blíženci ♊"
    case Cancer => "Rak ♋"
    case Leo => "Lev ♌"
    case Virgo => "Panna ♍"
    case Libra => "Váhy ♎"
    case Scorpio => "Štír ♏"
    case Sagittarius => "Střelec ♐"
    case Capricorn => "Kozoroh ♑"
  }

  /** Each sign has its own label, so the text reported names the sign. */
  lemma LabelNamesSign(a: Sign, b: Sign)
    ensures Label(a) == Label(b) <==> a == b
  {
  }

  /** One row of the table: the sign applies from (startMonth, startDay) to (endMonth, endDay). */
  datatype Range = Range(startMonth: int, startDay: int, endMonth: int, endDay: int, sign: Sign)

  /** The table, in the program's order. */
  const Table: seq<Range> := [
    Range(1, 20, 2, 18, Aquarius),
    Range(2, 19, 3, 20, Pisces),
    Range(3, 21, 4, 19, Aries),
    Range(4, 20, 5, 20, Taurus),
    Range(5, 21, 6, 20, Gemini),
    Range(6, 21, 7, 22, Cancer),
    Range(7, 23, 8, 22, Leo),
    Range(8, 23, 9, 22, Virgo),
    Range(9, 23, 10, 22, Libra),
    Range(10, 23, 11, 21, Scorpio),
    Range(11, 22, 12, 21, Sagittarius),
    Range(12, 22, 1, 19, Capricorn)
  ]

  /**
    The program's test of one row; day and month are whatever integers were
    read. A row spanning two months matches from its start day on in the
    first month and up to its end day in the second, so the branch for the
    row that wraps from December to January agrees with the general one.
   */
  predicate Matches(r: Range, month: int, day: int): (b: bool)
    ensures b ==> month == r.startMonth || month == r.endMonth
    ensures r.startMonth != r.endMonth ==>
      (b <==> (month == r.startMonth && day >= r.startDay) || (month == r.endMonth && day <= r.endDay))
  {
    if r.startMonth == r.endMonth then
      month == r.startMonth && r.startDay <= day <= r.endDay
    else if r.startMonth == 12 && r.endMonth == 1 then
      (month == 12 && day >= r.startDay) || (month == 1 && day <= r.endDay)
    else
      (month == r.startMonth && day >= r.startDay) || (month == r.endMonth && day <= r.endDay)
  }

  /** Reference: the sign that begins in each month, January first. */
  const BeginsIn: seq<Sign> := [
    Aquarius, Pisces, Aries, Taurus, Gemini, Cancer,
    Leo, Virgo, Libra, Scorpio, Sagittarius, Capricorn
  ]

  /** Reference: the day of each month on which the new sign begins. */
  const Cusp: seq<int> := [20, 19, 21, 20, 21, 21, 23, 23, 23, 23, 22, 22]

  /** Reference: before the cusp a day still belongs to the sign that began the month before. */
  function CuspSign(month: int, day: int): Sign
    requires 1 <= month <= 12
  {
    if day >= Cusp[month - 1] then BeginsIn[month - 1] else BeginsIn[(month + 10) % 12]
  }

  /** The row a day belongs to by the reference. */
  function CuspRow(month: int, day: int): (i: int)
    requires 1 <= month <= 12
    ensures 0 <= i < |Table|
  {
    if day >= Cusp[month - 1] then month - 1 else (month + 10) % 12
  }

  /**
    The table partitions the calendar: in every month 1..12, every day
    number (not only 1..31) matches exactly one row, the reference's; in any
    other month no row matches.
   */
  lemma TablePartitions(month: int, day: int)
    ensures 1 <= month <= 12 ==>
      Matches(Table[CuspRow(month, day)], month, day)
      && Table[CuspRow(month, day)].sign == CuspSign(month, day)
      && forall j :: 0 <= j < |Table| && j != CuspRow(month, day) ==> !Matches(Table[j], month, day)
    ensures !(1 <= month <= 12) ==> forall j :: 0 <= j < |Table| ==> !Matches(Table[j], month, day)
  {
    if 1 <= month <= 12 {
      CuspRowMatches(month, day);
      forall j | 0 <= j < |Table| && j != CuspRow(month, day) ensures !Matches(Table[j], month, day) {
        RowIsCusp(j, month, day);
      }
    } else {
      forall j | 0 <= j < |Table| ensures !Matches(Table[j], month, day) {
        RowMonths(j);
      }
    }
  }

  /** In a month 1..12 the reference's row matches, with the reference's sign. */
  lemma CuspRowMatches(month: int, day: int)
    requires 1 <= month <= 12
    ensures Matches(Table[CuspRow(month, day)], month, day)
    ensures Table[CuspRow(month, day)].sign == CuspSign(month, day)
  {
    if month <= 4 {
      assert month == 1 || month == 2 || month == 3 || month == 4;
    } else if month <= 8 {
      assert month == 5 || month == 6 || month == 7 || month == 8;
    } else {
      assert month == 9 || month == 10 || month == 11 || month == 12;
    }
  }

  /** The only row that can match a day of a month 1..12 is the reference's. */
  lemma RowIsCusp(j: int, month: int, day: int)
    requires 1 <= month <= 12 && 0 <= j < |Table|
    ensures Matches(Table[j], month, day) ==> j == CuspRow(month, day)
  {
    RowMonths(j);
    var r := Table[j];
    if Matches(r, month, day) {
      if month == r.startMonth {
        assert month - 1 == j && day >= Cusp[j];
      } else if j == 11 {
        assert month == 1 && day < Cusp[0];
      } else {
        assert month == j + 2 && day < Cusp[j + 1];
      }
    }
  }

  /** Row `j` begins in month j + 1 on its cusp day and ends in the month before, the day before the cusp. */
  lemma RowMonths(j: int)
    requires 0 <= j < |Table|
    ensures Table[j].startMonth == j + 1 && Table[j].startDay == Cusp[j] && Table[j].sign == BeginsIn[j]
    ensures Table[j].endMonth == (j + 1) % 12 + 1 && Table[j].endDay == Cusp[(j + 1) % 12] - 1
    ensures Table[j].startMonth != Table[j].endMonth
  {
  }

  /**
    The program's `for` loop over the table with its early `return`: the
    first row that matches, or none.
   */
  method FindSign(month: int, day: int) returns (found: Option<Sign>)
    ensures found.Some? ==>
      exists i :: 0 <= i < |Table| && Matches(Table[i], month, day) && found.value == Table[i].sign
        && forall j :: 0 <= j < i ==> !Matches(Table[j], month, day)
    ensures found.None? <==> forall j :: 0 <= j < |Table| ==> !Matches(Table[j], month, day)
    ensures found == if 1 <= month <= 12 then Some(CuspSign(month, day)) else None
  {
    TablePartitions(month, day);
    var i := 0;
    while i < |Table|
      invariant 0 <= i <= |Table|
      invariant forall j :: 0 <= j < i ==> !Matches(Table[j], month, day)
    {
      if Matches(Table[i], month, day) {
        return Some(Table[i].sign);
      }
      i := i + 1;
    }
    return None;
  }

  /** What `get_zodiac_sign` reports. */
  datatype ZodiacReply = SignOf(sign: Sign) | UnknownSign | InvalidFormat

  /**
    `int(parts[0])` and `int(parts[1])` of the normalized text, as (day,
    month): the day and the month of the date the other tools read from the
    same text, whenever they read one.
   */
  function DayMonth(normalized: string): (r: Option<(int, int)>)
    ensures DateFormat.ParseBirth(normalized).Birth? ==>
      var b := DateFormat.ParseBirth(normalized).date;
      r == Some((b.day, b.month))
  {
    DateFormat.BirthFields(normalized);
    var parts := Split(normalized, '.');
    if |parts| < 2 then None
    else
      var d, m := ParseInt(parts[0]), ParseInt(parts[1]);
      if d.Some? && m.Some? then Some((d.value, m.value)) else None
  }

  /**
    `get_zodiac_sign(birth_date)`. No calendar check is made: a month outside
    1..12 gives the unknown sign, and a text with only two pieces ("15.3") is
    read as well.
   */
  method GetZodiacSign(birthDate: string) returns (r: ZodiacReply)
    ensures DayMonth(DateFormat.NormalizeDate(birthDate)).None? <==> r == InvalidFormat
    ensures DayMonth(DateFormat.NormalizeDate(birthDate)).Some? ==>
      var (day, month) := DayMonth(DateFormat.NormalizeDate(birthDate)).value;
      r == if 1 <= month <= 12 then SignOf(CuspSign(month, day)) else UnknownSign
    ensures DateFormat.ParseBirth(DateFormat.NormalizeDate(birthDate)).Birth? ==>
      var b := DateFormat.ParseBirth(DateFormat.NormalizeDate(birthDate)).date;
      r == SignOf(CuspSign(b.month, b.day))
  {
    var normalized := DateFormat.NormalizeDate(birthDate);
    var parts := Split(normalized, '.');
    if |parts| < 2 {
      return InvalidFormat;
    }
    var day, month := ParseInt(parts[0]), ParseInt(parts[1]);
    if day.None? || month.None? {
      return InvalidFormat;
    }
    var found := FindSign(month.value, day.value);
    match found
    case Some(s) => r := SignOf(s);
    case None => r := UnknownSign;
  }

  /**
    A text with only two pieces is read too: "15.3" is left alone by
    `normalize_date` and gets the sign of 15 March, Pisces.
   */
  lemma TwoPieceSign()
    ensures DateFormat.NormalizeDate("15.3") == "15.3"
    ensures DayMonth("15.3") == Some((15, 3)) && CuspSign(3, 15) == Pisces
  {
    TwoPieces();
    SmallNumbers();
    MidMarch();
  }

  /** 15 March is before the March cusp, so it falls to the sign that began in February. */
  lemma MidMarch()
    ensures CuspSign(3, 15) == Pisces
  {
    assert Cusp[2] == 21 && (3 + 10) % 12 == 1 && BeginsIn[1] == Pisces;
  }

  /** "15.3" is already stripped and splits into "15" and "3". */
  lemma TwoPieces()
    ensures Split("15.3", '.') == ["15", "3"]
    ensures DateFormat.Pieces("15.3") == ["15", "3"]
  {
    assert "15.3" == "15" + ['.'] + "3";
    SplitTwo("15", "3", '.');
    StripClean("15.3");
  }

  /** `int("15") == 15` and `int("3") == 3`. */
  lemma SmallNumbers()
    ensures ParseInt("15") == Some(15) && ParseInt("3") == Some(3)
  {
    Fifteen();
    ParseIntChar('3');
    assert "3" == ['3'];
  }

  lemma Fifteen()
    ensures ParseInt("15") == Some(15)
  {
    ParseIntDigits("15");
    assert DigitsValue("15") == 15 by {
      assert "15"[..1] == "1";
      assert "1"[..0] == [];
    }
  }
}
