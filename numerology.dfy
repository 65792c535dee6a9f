/**
  `calculate_life_number`: the numerological life number of a birth date,
  the digit sum of the date reduced by repeated digit sums until it is a
  single digit or one of the master numbers 11, 22 and 33.
 */
module Numerology {
  import opened PyStr
  import DateFormat

  const MasterNumbers: set<int> := {11, 22, 33}

  /** The loop condition of the program: more than one digit and not a master number. */
  predicate NeedsReduction(n: int) {
    n > 9 && n !in MasterNumbers
  }

  /** A digit sum is smaller than any number of two or more digits. */
  lemma {:induction false} DigitSumDecreases(n: nat)
    ensures DigitSum(n) <= n
    ensures n > 9 ==> DigitSum(n) < n
  {
    if n >= 10 {
      DigitSumDecreases(n / 10);
    }
  }

  /** Casting out nines: a digit sum leaves the remainder modulo 9 unchanged. */
  lemma {:induction false} DigitSumMod9(n: nat)
    ensures DigitSum(n) % 9 == n % 9
  {
    if n >= 10 {
      DigitSumMod9(n / 10);
      NinesStep(DigitSum(n / 10), n / 10, n % 10);
      assert n == 10 * (n / 10) + n % 10;
    }
  }

  /** Adding the last digit to a number congruent to the rest keeps the congruence. */
  lemma NinesStep(s: int, q: int, r: int)
    requires s % 9 == q % 9
    ensures (s + r) % 9 == (10 * q + r) % 9
  {
    var a, b, m := s / 9, q / 9, s % 9;
    assert s == 9 * a + m && q == 9 * b + m;
    assert s + r == 9 * a + (m + r);
    assert 10 * q + r == 9 * (10 * b + m) + (m + r);
  }

  /** A positive number has a positive digit sum. */
  lemma {:induction false} DigitSumPositive(n: nat)
    ensures n >= 1 ==> DigitSum(n) >= 1
  {
    if n >= 10 {
      DigitSumPositive(n / 10);
    }
  }

  /**
    The reduction the loop performs, as a recursive definition: it ends at a
    single digit or a master number, never grows the number, and leaves a
    number that needs no reduction alone.
   */
  function Reduce(n: nat): (r: nat)
    ensures r <= 9 || r in MasterNumbers
    ensures r <= n
    ensures !NeedsReduction(n) ==> r == n
    decreases n
  {
    if NeedsReduction(n) then
      DigitSumDecreases(n);
      Reduce(DigitSum(n))
    else n
  }

  /** The reduction keeps the number modulo 9 and keeps it positive. */
  lemma {:induction false} ReduceFacts(n: nat)
    ensures Reduce(n) % 9 == n % 9
    ensures n >= 1 ==> Reduce(n) >= 1
    decreases n
  {
    if NeedsReduction(n) {
      DigitSumDecreases(n);
      DigitSumMod9(n);
      DigitSumPositive(n);
      ReduceFacts(DigitSum(n));
    }
  }

  /** A reduction that reaches no master number ends at the digital root. */
  lemma DigitalRoot(n: nat)
    requires n >= 1 && Reduce(n) <= 9
    ensures Reduce(n) == 1 + (n - 1) % 9
  {
    ReduceFacts(n);
    ResidueRoot(Reduce(n), n);
  }

  /** The only number in 1..9 congruent to `n` modulo 9 is 1 + (n - 1) % 9. */
  lemma ResidueRoot(r: int, n: int)
    requires 1 <= r <= 9 && n >= 1 && r % 9 == n % 9
    ensures r == 1 + (n - 1) % 9
  {
    var q, t := (n - 1) / 9, (n - 1) % 9;
    assert n == 9 * q + (t + 1);
    if t == 8 {
      assert n == 9 * (q + 1);
      assert n % 9 == 0;
    } else {
      assert n % 9 == t + 1;
    }
  }

  /**
    The `while` loop of the program, starting from the digit sum of the
    date; each round replaces the total by `sum(int(d) for d in str(total))`.
   */
  method ReduceLifeNumber(start: nat) returns (total: nat)
    ensures total == Reduce(start)
    ensures total <= 9 || total in MasterNumbers
    ensures total % 9 == start % 9
  {
    total := start;
    while NeedsReduction(total)
      invariant Reduce(total) == Reduce(start)
      invariant total % 9 == start % 9
      decreases total
    {
      SumOfDecimalString(total);
      DigitSumDecreases(total);
      DigitSumMod9(total);
      var digits := SumOfCharInts(DecimalString(total));
      total := digits.value;
    }
    ReduceFacts(start);
  }

  /** The meanings table; a life number outside it has an unknown meaning. */
  const Meanings: map<int, string> := map[
    1 := "Vůdce - nezávislý, ambiciózní, originální",
    2 := "Diplomat - citlivý, spolupracující, mírumilovný",
    3 := "Tvůrce - kreativní, expresivní, optimistický",
    4 := "Stavitel - praktický, organizovaný, spolehlivý",
    5 := "Dobrodruh - svobodomyslný, všestranný, zvědavý",
    6 := "Pečovatel - zodpovědný, milující, ochranitelský",
    7 := "Myslitel - analytický, introspektivní, duchovní",
    8 := "Achiever - ambiciózní, materialistický, mocný",
    9 := "Humanista - soucitný, idealistický, velkorysý",
    11 := "Mistr Intuice - vizionář, inspirativní, duchovní",
    22 := "Mistr Stavitel - praktický vizionář, mocný",
    33 := "Mistr Učitel - soucitný, moudrý, duchovní průvodce"
  ]

  /** `meanings.get(total)`: every single-digit or master life number but 0 has a meaning. */
  function MeaningOf(total: int): (m: Option<string>)
    ensures total in Meanings <==> m.Some?
    ensures m.Some? ==> m.value == Meanings[total]
    ensures (0 <= total <= 9 || total in MasterNumbers) ==> (m.Some? <==> total != 0)
  {
    assert total in Meanings <==> total in {1, 2, 3, 4, 5, 6, 7, 8, 9, 11, 22, 33};
    if total in Meanings then Some(Meanings[total]) else None
  }

  /** What `calculate_life_number` reports: the number and its meaning, if the table has one. */
  datatype LifeReply = LifeNumber(total: int, meaning: Option<string>) | InvalidFormat

  /**
    `sum(int(d) for d in "".join(normalized.split(".")))`: the characters
    summed are the normalized text without its dots, and the sum fails on any
    other non-digit.
   */
  function DateDigitSum(normalized: string): (r: Option<int>)
    ensures r == SumOfCharInts(Without(normalized, '.'))
    ensures r.Some? <==> forall c :: c in Without(normalized, '.') ==> IsDigit(c)
    ensures r.Some? ==> r.value >= 0
  {
    ConcatSplit(normalized, '.');
    SumOfCharIntsDigits(Without(normalized, '.'));
    SumOfCharInts(Concat(Split(normalized, '.')))
  }

  lemma {:induction false} SumOfCharIntsDigits(s: string)
    ensures SumOfCharInts(s).Some? <==> forall c :: c in s ==> IsDigit(c)
    ensures SumOfCharInts(s).Some? ==> SumOfCharInts(s).value >= 0
  {
    if s != [] {
      SumOfCharIntsDigits(s[1..]);
      assert forall c :: c in s <==> c == s[0] || c in s[1..];
    }
  }

  /**
    `calculate_life_number(birth_date)`. The digits are those of the
    normalized text, dots removed; a text `normalize_date` leaves unchanged
    (fewer than two dots) is summed as it is, and the normalization drops
    any piece after the third. Any character other than a digit or a dot left in the
    normalized text makes the format invalid; the life number is 0, which has
    no meaning in the table, exactly when every digit summed is a zero (see
    `ZeroLifeNumber`).
   */
  method CalculateLifeNumber(birthDate: string) returns (r: LifeReply)
    ensures DateDigitSum(DateFormat.NormalizeDate(birthDate)).None? <==> r == InvalidFormat
    ensures r.LifeNumber? ==> Reports(DateDigitSum(DateFormat.NormalizeDate(birthDate)).value, r)
  {
    var normalized := DateFormat.NormalizeDate(birthDate);
    var sum := DateDigitSum(normalized);
    if sum.None? {
      return InvalidFormat;
    }
    r := LifeNumberFrom(sum.value);
  }

  /**
    The digit sum of the normalized date, and so its life number, is 0
    exactly when the text has nothing but zeros besides its dots: "", "."
    and "0.0.0" (normalized to "00.00.0") give 0, while "abc" does not sum
    at all.
   */
  lemma ZeroLifeNumber(normalized: string)
    ensures DateDigitSum(normalized) == Some(0) ==> forall c :: c in Without(normalized, '.') ==> c == '0'
    ensures (forall c :: c in Without(normalized, '.') ==> c == '0') ==> DateDigitSum(normalized) == Some(0)
    ensures Reduce(0) == 0
  {
    SumZero(Without(normalized, '.'));
  }

  /** A sum of single digits is 0 exactly when every digit is a zero. */
  lemma {:induction false} SumZero(s: string)
    ensures SumOfCharInts(s) == Some(0) <==> forall c :: c in s ==> c == '0'
  {
    if s != [] {
      var rest := s[1..];
      SumZero(rest);
      SumOfCharIntsDigits(rest);
      assert forall c :: c in s <==> c == s[0] || c in rest;
      if IsDigit(s[0]) && SumOfCharInts(rest).Some? {
        var d, b := DigitValue(s[0]), SumOfCharInts(rest).value;
        assert SumOfCharInts(s) == Some(d + b);
        if d + b == 0 {
          assert d == 0 && SumOfCharInts(rest) == Some(0);
        }
        if forall c :: c in s ==> c == '0' {
          assert s[0] in s;
          assert forall c :: c in rest ==> c in s;
        }
      }
    }
  }

  /** The reply is the reduction of the digit sum `start` with its meaning, if the table has one. */
  predicate Reports(start: int, r: LifeReply) {
    r.LifeNumber? && start >= 0 && r.total == Reduce(start) && r.total % 9 == start % 9
    && (r.total <= 9 || r.total in MasterNumbers)
    && (r.meaning.Some? <==> r.total != 0)
    && (r.meaning.Some? ==> r.meaning.value == Meanings[r.total])
  }

  /** The loop and the table lookup, from the digit sum of the date. */
  method LifeNumberFrom(start: nat) returns (r: LifeReply)
    ensures Reports(start, r)
  {
    var total := ReduceLifeNumber(start);
    ReduceFacts(start);
    r := LifeNumber(total, MeaningOf(total));
  }

  /**
    No calendar check is made: "1985", a bare year, is left alone by
    `normalize_date`, sums to 23 and has life number 5.
   */
  lemma YearOnlyLifeNumber()
    ensures DateFormat.NormalizeDate("1985") == "1985"
    ensures DateDigitSum("1985") == Some(23) && Reduce(23) == 5
  {
    YearPiece();
    YearDigits();
    ReduceTwentyThree();
  }

  /** "1985" is one piece, which `normalize_date` leaves alone. */
  lemma YearPiece()
    ensures DateFormat.Pieces("1985") == ["1985"]
    ensures Without("1985", '.') == "1985"
  {
    assert '.' !in "1985";
    StripClean("1985");
    SplitNoSep("1985", '.');
    WithoutAbsent("1985", '.');
  }

  /** The digits of "1985" sum to 23. */
  lemma YearDigits()
    ensures SumOfCharInts("1985") == Some(23)
  {
    assert "1985"[1..] == "985" && "985"[1..] == "85" && "85"[1..] == "5" && "5"[1..] == [];
  }

  /** 23 reduces to 2 + 3 = 5. */
  lemma ReduceTwentyThree()
    ensures Reduce(23) == 5
  {
    assert DigitSum(23) == 5 by {
      assert DigitSum(2) == 2;
    }
  }
}
