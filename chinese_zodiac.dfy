/**
  `get_chinese_zodiac`: the animal of the birth year, read from a table of
  twelve animals at index `(year - 1900) % 12`.
 */
module ChineseZodiac {
  import opened PyStr
  import DateFormat

  datatype Animal = Rat | Ox | Tiger | Rabbit | Dragon | Snake | Horse | Goat | Monkey | Rooster | Dog | Pig

  /** The table in the program's order, which starts from the Monkey. */
  const Animals: seq<Animal> := [Monkey, Rooster, Dog, Pig, Rat, Ox, Tiger, Rabbit, Dragon, Snake, Horse, Goat]

  /** The traditional cycle, starting from the Rat. */
  const Cycle: seq<Animal> := [Rat, Ox, Tiger, Rabbit, Dragon, Snake, Horse, Goat, Monkey, Rooster, Dog, Pig]

  /** `(year - 1900) % 12` with Python's `%`, which for a positive divisor is never negative, as Dafny's is. */
  function AnimalIndex(year: int): (i: int)
    ensures 0 <= i < |Animals|
  {
    (year - 1900) % 12
  }

  /** The animal the program gives a year: the one at position `(year - 1900) % 12` of its table. */
  function AnimalOf(year: int): (a: Animal)
    ensures IndexOf(a) == (year - 1900) % 12
  {
    Animals[AnimalIndex(year)]
  }

  /** Years twelve apart get the same animal. */
  lemma {:induction false} AnimalPeriodic(year: int, k: int)
    ensures AnimalIndex(year + 12 * k) == AnimalIndex(year)
    ensures AnimalOf(year + 12 * k) == AnimalOf(year)
  {
    ModShift(year - 1900, k);
    assert year + 12 * k - 1900 == (year - 1900) + 12 * k;
  }

  /** How many years after `year` the animal `a` comes round. */
  function Offset(year: int, a: Animal): int {
    (IndexOf(a) - AnimalIndex(year)) % 12
  }

  /** Any twelve consecutive years get each of the twelve animals exactly once. */
  lemma AnimalsOncePerCycle(year: int)
    ensures forall a: Animal :: 0 <= Offset(year, a) < 12 && AnimalOf(year + Offset(year, a)) == a
    ensures forall y1, y2 :: year <= y1 < y2 < year + 12 ==> AnimalOf(y1) != AnimalOf(y2)
  {
    forall a: Animal ensures 0 <= Offset(year, a) < 12 && AnimalOf(year + Offset(year, a)) == a {
      assert AnimalIndex(year + Offset(year, a)) == IndexOf(a);
    }
    forall y1, y2 | year <= y1 < y2 < year + 12 ensures AnimalOf(y1) != AnimalOf(y2) {
      assert AnimalIndex(y1) != AnimalIndex(y2);
    }
  }

  lemma {:induction false} ModShift(x: int, k: int)
    ensures (x + 12 * k) % 12 == x % 12
    decreases if k < 0 then -k else k
  {
    if k > 0 {
      ModShift(x, k - 1);
      assert x + 12 * k == (x + 12 * (k - 1)) + 12;
    } else if k < 0 {
      ModShift(x, k + 1);
      assert x + 12 * k == (x + 12 * (k + 1)) - 12;
    }
  }

  /** The position of an animal in the program's table. */
  function IndexOf(a: Animal): (i: int)
    ensures 0 <= i < |Animals| && Animals[i] == a
  {
    match a
    case Monkey => 0 case Rooster => 1 case Dog => 2 case Pig => 3
    case Rat => 4 case Ox => 5 case Tiger => 6 case Rabbit => 7
    case Dragon => 8 case Snake => 9 case Horse => 10 case Goat => 11
  }

  /**
    The corrected lookup: the table's order is the order of `year % 12`
    (Monkey at 0), so indexing by `year % 12` gives the traditional animal,
    with 1900 a year of the Rat and 2024 a year of the Dragon.
   */
  function TraditionalAnimal(year: int): (a: Animal)
    ensures a == Cycle[(year - 1900) % 12]
  {
    var i := year % 12;
    assert year % 12 == ((year - 1900) % 12 + 4) % 12;
    Animals[i]
  }

  /** The as-written lookup is four years off the traditional cycle, so it is wrong for every year. */
  lemma AsWrittenShifted(year: int)
    ensures AnimalOf(year) == TraditionalAnimal(year - 4)
    ensures AnimalOf(year) != TraditionalAnimal(year)
    ensures AnimalOf(2024) == Rat && TraditionalAnimal(2024) == Dragon
  {
    assert (year - 1900) % 12 == (year - 4) % 12;
  }

  /** What `get_chinese_zodiac` reports. */
  datatype ChineseReply = AnimalFor(animal: Animal) | InvalidFormat

  /**
    `int(birth_date.split(".")[2])` of the normalized text: the year of the
    date the other tools read from the same text, whenever they read one.
   */
  function YearOf(normalized: string): (y: Option<int>)
    ensures DateFormat.ParseBirth(normalized).Birth? ==> y == Some(DateFormat.ParseBirth(normalized).date.year)
    ensures y.Some? ==> |Split(normalized, '.')| >= 3
  {
    DateFormat.BirthFields(normalized);
    var parts := Split(normalized, '.');
    if |parts| < 3 then None else ParseInt(parts[2])
  }

  /**
    `get_chinese_zodiac(birth_date)`, as written: only the year is read, with
    no calendar check (any integer `int()` accepts will do).
   */
  function GetChineseZodiac(birthDate: string): (r: ChineseReply)
    ensures r == InvalidFormat <==> YearOf(DateFormat.NormalizeDate(birthDate)).None?
    ensures r.AnimalFor? ==> r.animal == TraditionalAnimal(YearOf(DateFormat.NormalizeDate(birthDate)).value - 4)
  {
    ReplyFor(YearOf(DateFormat.NormalizeDate(birthDate)))
  }

  /** The reply for the year read, if one was. */
  function ReplyFor(year: Option<int>): (r: ChineseReply)
    ensures r == InvalidFormat <==> year.None?
    ensures r.AnimalFor? ==> r.animal == TraditionalAnimal(year.value - 4)
  {
    match year
    case None => InvalidFormat
    case Some(y) =>
      AsWrittenShifted(y);
      AnimalFor(AnimalOf(y))
  }
}
