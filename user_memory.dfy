/**
  The astrologer's memory of users, the module-level list `users_memory`:
  `save_user` appends a record, `list_all_users` enumerates the records,
  `get_total_days` sums their day counts and `clear_memory` empties the
  list. The program reads the clock with `date.today()`; here the day is the
  parameter `today`.
 */
module UserMemory {
  import opened PyDate
  import DateFormat

  /** One saved user: the name, the normalized birth date and the days lived on the day of saving. */
  datatype User = User(name: string, birthDate: string, daysAlive: int)

  /**
    `(date.today() - birth).days` for the date read from the normalized text,
    or 0 when reading it raises anything at all (the bare `except`). What the
    count means is stated by `DaysAliveFacts`.
   */
  function DaysAlive(normalized: string, today: Date): int
    requires Valid(today)
  {
    match DateFormat.ParseBirth(normalized)
    case Birth(b) => Ordinal(today) - Ordinal(b)
    case _ => 0
  }

  /**
    For a valid birth date the count is the difference of the days' ordinals,
    non-negative exactly when the birth is not after today and 0 exactly on
    the birth day; it is 0 whenever no date can be read.
   */
  lemma DaysAliveFacts(normalized: string, today: Date)
    requires Valid(today)
    ensures DateFormat.ParseBirth(normalized).Birth? ==>
      var b, d := DateFormat.ParseBirth(normalized).date, DaysAlive(normalized, today);
      d == Ordinal(today) - Ordinal(b) && (d >= 0 <==> !Precedes(today, b)) && (d == 0 <==> b == today)
    ensures !DateFormat.ParseBirth(normalized).Birth? ==> DaysAlive(normalized, today) == 0
  {
    if DateFormat.ParseBirth(normalized).Birth? {
      var b := DateFormat.ParseBirth(normalized).date;
      OrdinalOrder(today, b);
      OrdinalOrder(b, today);
    }
  }

  /** `sum(user["days_alive"] for user in users)`. */
  function SumDays(users: seq<User>): int {
    if users == [] then 0 else SumDays(users[..|users| - 1]) + users[|users| - 1].daysAlive
  }

  /** Appending a record adds its day count to the sum. */
  lemma {:induction false} SumDaysAppend(users: seq<User>, u: User)
    ensures SumDays(users + [u]) == SumDays(users) + u.daysAlive
  {
    assert (users + [u])[..|users + [u]| - 1] == users;
  }

  /** When every record counts a non-negative number of days, so does the sum. */
  lemma {:induction false} SumDaysNonNegative(users: seq<User>)
    requires forall i :: 0 <= i < |users| ==> users[i].daysAlive >= 0
    ensures SumDays(users) >= 0
  {
    if users != [] {
      SumDaysNonNegative(users[..|users| - 1]);
    }
  }

  /** One line of `list_all_users`: the position, counted from 1, and the record's fields. */
  datatype Row = Row(position: int, name: string, birthDate: string, daysAlive: int)

  /** What `list_all_users` reports. */
  datatype Listing = EmptyMemory | Listed(count: int, rows: seq<Row>)

  /** What `get_total_days` reports. */
  datatype Totals = NoUsers | Totals(count: int, total: int)

  class Memory {
    var users: seq<User>

    /** The list starts empty. */
    constructor ()
      ensures users == []
    {
      users := [];
    }

    /**
      `save_user(name, birth_date)` on the day `today`: exactly one record is
      appended, the earlier ones are untouched, and the sum of day counts
      grows by the new record's.
     */
    method SaveUser(name: string, birthDate: string, today: Date) returns (saved: User)
      requires Valid(today)
      modifies this
      ensures saved.name == name && saved.birthDate == DateFormat.NormalizeDate(birthDate)
      ensures saved.daysAlive == DaysAlive(saved.birthDate, today)
      ensures users == old(users) + [saved]
      ensures SumDays(users) == SumDays(old(users)) + saved.daysAlive
    {
      var normalized := DateFormat.NormalizeDate(birthDate);
      var daysAlive := DaysAlive(normalized, today);
      saved := User(name, normalized, daysAlive);
      SumDaysAppend(users, saved);
      users := users + [saved];
    }

    /** `list_all_users()`: the records in order, numbered from 1, or the empty message. */
    method ListAllUsers() returns (listing: Listing)
      ensures listing == EmptyMemory <==> users == []
      ensures listing.Listed? ==>
        listing.count == |users| && |listing.rows| == |users|
        && forall k :: 0 <= k < |users| ==>
          listing.rows[k] == Row(k + 1, users[k].name, users[k].birthDate, users[k].daysAlive)
    {
      if users == [] {
        return EmptyMemory;
      }
      var rows: seq<Row> := [];
      var i := 0;
      while i < |users|
        invariant 0 <= i <= |users| && |rows| == i
        invariant forall k :: 0 <= k < i ==>
          rows[k] == Row(k + 1, users[k].name, users[k].birthDate, users[k].daysAlive)
      {
        var user := users[i];
        rows := rows + [Row(i + 1, user.name, user.birthDate, user.daysAlive)];
        i := i + 1;
      }
      listing := Listed(|users|, rows);
    }

    /** `get_total_days()`: the record count and the sum of their day counts, or the empty message. */
    function TotalDays(): (t: Totals)
      reads this
      ensures t == NoUsers <==> users == []
      ensures t.Totals? ==> t.count == |users| >= 1 && t.total == SumDays(users)
    {
      if users == [] then NoUsers else Totals(|users|, SumDays(users))
    }

    /** `clear_memory()`: the list is emptied and its former length reported. */
    method ClearMemory() returns (removed: int)
      modifies this
      ensures users == [] && removed == |old(users)|
      ensures TotalDays() == NoUsers
    {
      removed := |users|;
      users := [];
    }
  }

  /**
    Saving two users into an empty memory on the same day: both are listed in
    order and the total is the sum of their day counts.
   */
  method SaveTwice(first: string, firstBirth: string, second: string, secondBirth: string, today: Date)
    returns (listing: Listing, totals: Totals)
    requires Valid(today)
    ensures listing.Listed? && listing.count == 2 && |listing.rows| == 2
    ensures listing.rows[0].position == 1 && listing.rows[0].name == first
    ensures listing.rows[1].position == 2 && listing.rows[1].name == second
    ensures totals == Totals(2, DaysAlive(DateFormat.NormalizeDate(firstBirth), today)
                                + DaysAlive(DateFormat.NormalizeDate(secondBirth), today))
  {
    var memory := new Memory();
    var a := memory.SaveUser(first, firstBirth, today);
    var b := memory.SaveUser(second, secondBirth, today);
    assert memory.users == [a, b];
    listing := memory.ListAllUsers();
    totals := memory.TotalDays();
  }
}
