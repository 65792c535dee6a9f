/**
  The weekday name `get_current_date` reports, looked up in a table of Czech
  day names by `date.weekday()`. The program reads the clock; here the day
  is a parameter.
 */
module CurrentDate {
  import opened PyDate

  /** `days_cz`, Monday first, as `date.weekday()` counts. */
  const DayNames: seq<string> := ["pondělí", "úterý", "středa", "čtvrtek", "pátek", "sobota", "neděle"]

  /** `days_cz[today.weekday()]`: one of the seven names, and the one at the day's weekday. */
  function DayName(today: Date): (name: string)
    requires Valid(today)
    ensures name in DayNames && IndexOf(name) == Weekday(today)
  {
    NamesDistinct(Weekday(today));
    DayNames[Weekday(today)]
  }

  /**
    The names follow the calendar: 1 January of year 1 was a Monday, the
    day after any day gets the next name of the week, Sunday wrapping to
    Monday, and days a week apart get the same name.
   */
  lemma DayNamesCycle(d: Date)
    requires Valid(d) && d != Date(MaxYear, 12, 31)
    ensures DayName(Date(1, 1, 1)) == "pondělí"
    ensures DayName(NextDay(d)) == DayNames[(IndexOf(DayName(d)) + 1) % 7]
  {
    OrdinalNextDay(d);
    NamesDistinct(Weekday(d));
  }

  /** The position of a name in the table, -1 for a name not in it. */
  function IndexOf(name: string): (i: int)
    ensures i == -1 <==> name !in DayNames
    ensures i != -1 ==> 0 <= i < 7 && DayNames[i] == name
  {
    if name == "pondělí" then 0 else if name == "úterý" then 1 else if name == "středa" then 2
    else if name == "čtvrtek" then 3 else if name == "pátek" then 4 else if name == "sobota" then 5
    else if name == "neděle" then 6 else -1
  }

  /** The seven names are distinct, so a name gives its weekday back. */
  lemma NamesDistinct(w: int)
    requires 0 <= w < 7
    ensures IndexOf(DayNames[w]) == w
  {
  }
}
