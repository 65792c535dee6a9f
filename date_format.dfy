/**
  The date helper shared by all the astrologer's tools: `normalize_date`,
  which rewrites "d.m.yyyy" as "dd.mm.yyyy", and the way the tools then read
  a day, a month and a year out of the normalized text and build a
  `datetime.date` from them.
 */
module DateFormat {
  import opened PyStr
  import PyDate

  /**
    `normalize_date(birth_date)`. Text whose stripped form has fewer than
    three dot-separated pieces is returned as it was given; otherwise the
    output splits into exactly the day and the month zero-padded to two
    characters and the untouched third piece, further pieces dropped.
   */
  function NormalizeDate(birthDate: string): (r: string)
    ensures |Pieces(birthDate)| < 3 ==> r == birthDate
    ensures |Pieces(birthDate)| >= 3 ==>
      Split(r, '.') == [ZFill(Pieces(birthDate)[0], 2), ZFill(Pieces(birthDate)[1], 2), Pieces(birthDate)[2]]
      && |Split(r, '.')[0]| >= 2 && |Split(r, '.')[1]| >= 2
  {
    var parts := Split(Strip(birthDate), '.');
    if |parts| >= 3 then
      ThreeFields(ZFill(parts[0], 2), ZFill(parts[1], 2), parts[2]);
      ZFill(parts[0], 2) + "." + ZFill(parts[1], 2) + "." + parts[2]
    else birthDate
  }

  /** Three pieces without dots, joined by dots, split back into themselves. */
  lemma ThreeFields(a: string, b: string, c: string)
    requires '.' !in a && '.' !in b && '.' !in c
    ensures Split(a + "." + b + "." + c, '.') == [a, b, c]
  {
    Assemble(a, b, c);
    SplitJoin([a, b, c], '.');
  }

  /** The pieces `normalize_date` splits its stripped input into. */
  function Pieces(birthDate: string): (p: seq<string>)
    ensures |p| >= 1
  {
    Split(Strip(birthDate), '.')
  }

  /**
    Holds when the third piece does not end in white space, which is so
    whenever the input has exactly three pieces (see `NormalizeIdempotent`).
   */
  predicate TailClean(birthDate: string) {
    var p := Pieces(birthDate);
    |p| < 3 || p[2] == [] || !IsSpace(p[2][|p[2]| - 1])
  }

  /** The three-piece text `normalize_date` writes, as a join. */
  lemma Assemble(a: string, b: string, c: string)
    ensures a + "." + b + "." + c == Join([a, b, c], '.')
  {
    assert [a, b, c][1..] == [b, c];
    assert [b, c][1..] == [c];
    assert Join([b, c], '.') == b + ['.'] + c;
    assert Join([a, b, c], '.') == a + ['.'] + (b + ['.'] + c);
  }

  /**
    On input with at least three pieces, padding keeps the value `int()`
    reads from the day and the month.
   */
  lemma NormalizeFields(birthDate: string)
    requires |Pieces(birthDate)| >= 3
    ensures ParseInt(Pieces(birthDate)[0]).Some? ==> ParseInt(ZFill(Pieces(birthDate)[0], 2)) == ParseInt(Pieces(birthDate)[0])
    ensures ParseInt(Pieces(birthDate)[1]).Some? ==> ParseInt(ZFill(Pieces(birthDate)[1], 2)) == ParseInt(Pieces(birthDate)[1])
  {
    var p := Pieces(birthDate);
    if ParseInt(p[0]).Some? { ZFillKeepsValue(p[0]); }
    if ParseInt(p[1]).Some? { ZFillKeepsValue(p[1]); }
  }

  /** The first character of the output is never white space. */
  lemma NormalizedStart(birthDate: string)
    requires |Pieces(birthDate)| >= 3
    ensures NormalizeDate(birthDate) != [] && !IsSpace(NormalizeDate(birthDate)[0])
  {
    var t := Strip(birthDate);
    var p := Pieces(birthDate);
    JoinSplit(t, '.');
    assert t == p[0] + ['.'] + Join(p[1..], '.');
    if |p[0]| >= 2 {
      assert p[0][0] == t[0];
    }
  }

  /**
    `normalize_date` is idempotent exactly when the input's third piece does
    not end in white space; with exactly three pieces it always is. In
    "1.2.3 .4" the third piece is "3 ": the first call keeps its space and
    the second strips it.
   */
  lemma NormalizeIdempotent(birthDate: string)
    ensures NormalizeDate(NormalizeDate(birthDate)) == NormalizeDate(birthDate) <==> TailClean(birthDate)
    ensures |Pieces(birthDate)| == 3 ==> TailClean(birthDate)
  {
    var p := Pieces(birthDate);
    if |p| >= 3 {
      NormalizeTwice(birthDate);
      var q := RStrip(p[2]);
      assert NormalizeDate(birthDate) == ZFill(p[0], 2) + "." + ZFill(p[1], 2) + "." + p[2];
      if TailClean(birthDate) {
        assert |q| == |p[2]|;
        assert q == p[2];
      } else {
        assert |q| < |p[2]|;
        assert |NormalizeDate(NormalizeDate(birthDate))| < |NormalizeDate(birthDate)|;
      }
      if |p| == 3 {
        ThreePiecesClean(birthDate);
      }
    }
  }

  /** Normalizing a second time only strips the white space that ends the third piece. */
  lemma NormalizeTwice(birthDate: string)
    requires |Pieces(birthDate)| >= 3
    ensures NormalizeDate(NormalizeDate(birthDate))
            == ZFill(Pieces(birthDate)[0], 2) + "." + ZFill(Pieces(birthDate)[1], 2) + "." + RStrip(Pieces(birthDate)[2])
  {
    var p := Pieces(birthDate);
    var r := NormalizeDate(birthDate);
    var z0, z1 := ZFill(p[0], 2), ZFill(p[1], 2);
    var head := z0 + "." + z1 + ".";
    assert r == head + p[2];
    var q := RStrip(p[2]);
    assert Strip(r) == head + q by {
      NormalizedStart(birthDate);
      assert LStrip(r) == r;
      RStripAppend(head, p[2]);
    }
    assert '.' !in q by {
      assert q == p[2][..|q|];
      forall i | 0 <= i < |q| ensures q[i] != '.' {
        assert q[i] == p[2][i];
      }
    }
    assert Pieces(r) == [z0, z1, q] by {
      assert '.' !in z0 && '.' !in z1;
      assert head + q == z0 + "." + z1 + "." + q;
      ThreeFields(z0, z1, q);
    }
  }

  /** With exactly three pieces the third ends the stripped input, so it does not end in white space. */
  lemma ThreePiecesClean(birthDate: string)
    requires |Pieces(birthDate)| == 3
    ensures TailClean(birthDate)
  {
    var p := Pieces(birthDate);
    var t := Strip(birthDate);
    JoinSplit(t, '.');
    Assemble(p[0], p[1], p[2]);
    assert p == [p[0], p[1], p[2]];
    assert t == p[0] + "." + p[1] + "." + p[2];
    if p[2] != [] {
      assert t[|t| - 1] == p[2][|p[2]| - 1];
    }
  }

  /** The outcome of reading a birth date out of normalized text. */
  datatype BirthParse =
    | Birth(date: PyDate.Date)  // a valid calendar date
    | Malformed                 // IndexError, or ValueError from int() or date()
    | TooLarge                  // OverflowError from date(): an argument outside a C int

  /**
    `date(int(parts[2]), int(parts[1]), int(parts[0]))` for
    `parts = normalized.split(".")`, as `save_user` and `calculate_age` do it.
   */
  function ParseBirth(normalized: string): (r: BirthParse)
    ensures r.Birth? ==> PyDate.Valid(r.date)
    ensures |Split(normalized, '.')| < 3 ==> r == Malformed
    ensures |Split(normalized, '.')| >= 3 ==>
      var p := Split(normalized, '.');
      Reads(ParseInt(p[0]), ParseInt(p[1]), ParseInt(p[2]), r)
  {
    var parts := Split(normalized, '.');
    if |parts| < 3 then Malformed else ReadDate(ParseInt(parts[0]), ParseInt(parts[1]), ParseInt(parts[2]))
  }

  /**
    The outcome `r` for the day, month and year `int()` read: malformed when
    one of them was not read; otherwise the date they form when it is a
    calendar date, and too large exactly when one is outside a C `int`.
   */
  predicate Reads(d: Option<int>, m: Option<int>, y: Option<int>, r: BirthParse) {
    if d.None? || m.None? || y.None? then r == Malformed
    else
      (r.Birth? <==> PyDate.Valid(PyDate.Date(y.value, m.value, d.value)))
      && (r.Birth? ==> r.date == PyDate.Date(y.value, m.value, d.value))
      && (r.TooLarge? <==> !(PyDate.InCInt(y.value) && PyDate.InCInt(m.value) && PyDate.InCInt(d.value)))
  }

  /** A date read from text is made of the day, month and year `int()` reads from its first three pieces. */
  lemma BirthFields(normalized: string)
    ensures ParseBirth(normalized).Birth? ==>
      var p, b := Split(normalized, '.'), ParseBirth(normalized).date;
      |p| >= 3 && ParseInt(p[0]) == Some(b.day) && ParseInt(p[1]) == Some(b.month) && ParseInt(p[2]) == Some(b.year)
  {
  }

  /** `date(year, month, day)` for the integers `int()` read, if it read them all. */
  function ReadDate(d: Option<int>, m: Option<int>, y: Option<int>): (r: BirthParse)
    ensures r.Birth? ==> PyDate.Valid(r.date)
    ensures Reads(d, m, y, r)
  {
    if d.None? || m.None? || y.None? then Malformed
    else
      match PyDate.MakeDate(y.value, m.value, d.value)
      case Made(b) => Birth(b)
      case ValueError => Malformed
      case OverflowError => TooLarge
  }

  /**
    Normalizing does not change the date read from the text once the
    stripped input has three pieces whose day and month `int()` accepts: the
    date read from the output is then the date read from the stripped input.
    Without that hypothesis it can change (see `PaddingReadsSign`).
   */
  lemma NormalizePreservesBirth(birthDate: string)
    requires |Pieces(birthDate)| >= 3
    requires ParseInt(Pieces(birthDate)[0]).Some? && ParseInt(Pieces(birthDate)[1]).Some?
    ensures ParseBirth(NormalizeDate(birthDate)) == ParseBirth(Strip(birthDate))
  {
    var p := Pieces(birthDate);
    var z0, z1 := ZFill(p[0], 2), ZFill(p[1], 2);
    assert ParseBirth(NormalizeDate(birthDate)) == ReadDate(ParseInt(z0), ParseInt(z1), ParseInt(p[2])) by {
      NormalizeFields(birthDate);
    }
    assert ParseInt(z0) == ParseInt(p[0]) && ParseInt(z1) == ParseInt(p[1]) by {
      ZFillKeepsValue(p[0]);
      ZFillKeepsValue(p[1]);
    }
  }

  /** Text with fewer than two dots is returned unchanged, and no date is read from it. */
  lemma NormalizeRejectsShort(birthDate: string)
    requires |Pieces(birthDate)| < 3
    ensures NormalizeDate(birthDate) == birthDate
    ensures ParseBirth(NormalizeDate(birthDate)) == Malformed
  {
    StripKeepsPieces(birthDate, '.');
  }

  /**
    A lone sign is no number, but padded it becomes "+0", which is: with a
    year too large for a C `int`, such as "+.1.3000000000", the stripped
    text reads as malformed while its normalization "+0.01.3000000000" reads
    as too large for `date()`.
   */
  lemma PaddingReadsSign(y: string)
    requires 1 <= |y| <= MaxStrDigits && forall i :: 0 <= i < |y| ==> IsDigit(y[i])
    requires DigitsValue(y) > PyDate.IntMax
    ensures ParseBirth(Strip("+.1." + y)) == Malformed
    ensures Split(NormalizeDate("+.1." + y), '.') == ["+0", "01", y]
    ensures ParseBirth(NormalizeDate("+.1." + y)) == TooLarge
  {
    SignPieces(y);
    assert ParseBirth(Strip("+.1." + y)) == Malformed by {
      ReadPieces("+.1." + y, "+", "1", y);
      PaddedSign();
    }
    NormalizedSign(y);
  }

  /** The normalization of "+.1." and a year too large for a C `int` reads as too large. */
  lemma NormalizedSign(y: string)
    requires 1 <= |y| <= MaxStrDigits && forall i :: 0 <= i < |y| ==> IsDigit(y[i])
    requires DigitsValue(y) > PyDate.IntMax
    requires Pieces("+.1." + y) == ["+", "1", y]
    ensures Split(NormalizeDate("+.1." + y), '.') == ["+0", "01", y]
    ensures ParseBirth(NormalizeDate("+.1." + y)) == TooLarge
  {
    PaddedSign();
    SignedTooLarge(NormalizeDate("+.1." + y), y);
  }

  /** Text splitting into "+0", "01" and a year too large for a C `int` reads as too large. */
  lemma SignedTooLarge(n: string, y: string)
    requires 1 <= |y| <= MaxStrDigits && forall i :: 0 <= i < |y| ==> IsDigit(y[i])
    requires DigitsValue(y) > PyDate.IntMax
    requires Split(n, '.') == ["+0", "01", y]
    ensures ParseBirth(n) == TooLarge
  {
    ReadPieces(n, "+0", "01", y);
    PaddedSign();
    ParseIntDigits(y);
  }

  /** The date read from text of three pieces is the one `date()` builds from their integers. */
  lemma ReadPieces(n: string, a: string, b: string, c: string)
    requires Split(n, '.') == [a, b, c]
    ensures ParseBirth(n) == ReadDate(ParseInt(a), ParseInt(b), ParseInt(c))
  {
  }

  /** The text "+.1." followed by digits is already stripped and has three pieces. */
  lemma SignPieces(y: string)
    requires 1 <= |y| && forall i :: 0 <= i < |y| ==> IsDigit(y[i])
    ensures Strip("+.1." + y) == "+.1." + y
    ensures Pieces("+.1." + y) == ["+", "1", y]
  {
    var t := "+.1." + y;
    assert '.' !in y by {
      forall i | 0 <= i < |y| ensures y[i] != '.' {
        assert IsDigit(y[i]);
      }
    }
    assert '.' !in "+" && '.' !in "1";
    ThreeFields("+", "1", y);
    assert t == "+" + "." + "1" + "." + y;
    assert Strip(t) == t by {
      assert !IsSpace(t[0]) && t[|t| - 1] == y[|y| - 1];
      StripClean(t);
    }
  }

  /** "+" is no number, while its padding "+0" reads as 0, and "1" pads to "01", read as 1. */
  lemma PaddedSign()
    ensures ParseInt("+").None?
    ensures ZFill("+", 2) == "+0" && ParseInt("+0") == Some(0)
    ensures ZFill("1", 2) == "01" && ParseInt("01") == Some(1)
  {
    assert ParseInt("+").None? by {
      ParseIntChar('+');
    }
    assert ZFill("+", 2) == "+0";
    assert ParseInt("+0") == Some(0) by {
      SignZero();
    }
    assert ZFill("1", 2) == "01" && ParseInt("01") == Some(1) by {
      PadDigit('1');
    }
  }

  lemma SignZero()
    ensures ParseInt("+0") == Some(0)
  {
    IntStripClean("+0");
    ParseOfStripped("+0", "+0");
    assert "+0"[1..] == "0";
    SignedDigits("0");
  }

  /** A date as `normalize_date` writes it, "dd.mm.yyyy", with the year as `str()` writes it. */
  function DateText(d: PyDate.Date): string
    requires PyDate.Valid(d)
  {
    ZFill(DecimalString(d.day), 2) + "." + ZFill(DecimalString(d.month), 2) + "." + DecimalString(d.year)
  }

  /** A date as a user may type it, "d.m.yyyy", each number as `str()` writes it. */
  function ShortText(d: PyDate.Date): string
    requires PyDate.Valid(d)
  {
    DecimalString(d.day) + "." + DecimalString(d.month) + "." + DecimalString(d.year)
  }

  /**
    The round trip of a date through its text: "d.m.yyyy" normalizes to
    "dd.mm.yyyy", which normalizing leaves alone and from which the tools
    read the date back.
   */
  lemma BirthRoundTrip(d: PyDate.Date)
    requires PyDate.Valid(d)
    ensures NormalizeDate(ShortText(d)) == DateText(d)
    ensures NormalizeDate(DateText(d)) == DateText(d)
    ensures ParseBirth(DateText(d)) == Birth(d)
  {
    ShortNormalizes(d);
    TextNormalizes(d);
    TextReads(d);
  }

  lemma ShortNormalizes(d: PyDate.Date)
    requires PyDate.Valid(d)
    ensures NormalizeDate(ShortText(d)) == DateText(d)
  {
    var a, b, c := DecimalString(d.day), DecimalString(d.month), DecimalString(d.year);
    DigitRun(a);
    DigitRun(b);
    DigitRun(c);
    CleanThree(a, b, c);
  }

  lemma TextNormalizes(d: PyDate.Date)
    requires PyDate.Valid(d)
    ensures NormalizeDate(DateText(d)) == DateText(d)
  {
    var za, zb, c := ZFill(DecimalString(d.day), 2), ZFill(DecimalString(d.month), 2), DecimalString(d.year);
    PaddedField(d.day);
    PaddedField(d.month);
    DigitRun(za);
    DigitRun(zb);
    DigitRun(c);
    CleanThree(za, zb, c);
  }

  lemma TextReads(d: PyDate.Date)
    requires PyDate.Valid(d)
    ensures ParseBirth(DateText(d)) == Birth(d)
  {
    TextSplits(d);
    FieldsRead(d);
    assert Reads(Some(d.day), Some(d.month), Some(d.year), ParseBirth(DateText(d)));
  }

  /** `int()` reads the padded day, the padded month and the year of a date's text back. */
  lemma FieldsRead(d: PyDate.Date)
    requires PyDate.Valid(d)
    ensures ParseInt(ZFill(DecimalString(d.day), 2)) == Some(d.day)
    ensures ParseInt(ZFill(DecimalString(d.month), 2)) == Some(d.month)
    ensures ParseInt(DecimalString(d.year)) == Some(d.year)
  {
    PaddedField(d.day);
    PaddedField(d.month);
    NumberField(d.year);
  }

  /** The text of a date splits into the padded day, the padded month and the year. */
  lemma TextSplits(d: PyDate.Date)
    requires PyDate.Valid(d)
    ensures Split(DateText(d), '.') == [ZFill(DecimalString(d.day), 2), ZFill(DecimalString(d.month), 2), DecimalString(d.year)]
  {
    var za, zb, c := ZFill(DecimalString(d.day), 2), ZFill(DecimalString(d.month), 2), DecimalString(d.year);
    PaddedField(d.day);
    PaddedField(d.month);
    DigitRun(za);
    DigitRun(zb);
    DigitRun(c);
    ThreeFields(za, zb, c);
  }

  /** Three dot-free pieces joined by dots, with no white space at the ends, are split into themselves. */
  lemma CleanThree(a: string, b: string, c: string)
    requires '.' !in a && '.' !in b && '.' !in c
    requires a != [] && c != [] && !IsSpace(a[0]) && !IsSpace(c[|c| - 1])
    ensures Pieces(a + "." + b + "." + c) == [a, b, c]
  {
    var t := a + "." + b + "." + c;
    assert t[0] == a[0] && t[|t| - 1] == c[|c| - 1];
    CleanPieces(t);
    ThreeFields(a, b, c);
  }

  /** Text without white space at its ends is split as it stands. */
  lemma CleanPieces(t: string)
    requires t != [] && !IsSpace(t[0]) && !IsSpace(t[|t| - 1])
    ensures Pieces(t) == Split(t, '.')
  {
    StripClean(t);
  }

  /** A non-empty run of digits holds no dot and no white space. */
  lemma DigitRun(a: string)
    requires |a| >= 1 && forall i :: 0 <= i < |a| ==> IsDigit(a[i])
    ensures '.' !in a && !IsSpace(a[0]) && !IsSpace(a[|a| - 1])
  {
    assert IsDigit(a[0]) && IsDigit(a[|a| - 1]);
  }

  /** `str(n)` of a date field is a digit run `int()` reads back as `n`. */
  lemma NumberField(n: nat)
    requires n <= PyDate.MaxYear
    ensures ParseInt(DecimalString(n)) == Some(n)
  {
    DecimalStringLength(n);
    DecimalStringRoundTrip(n);
  }

  /** Padded to two characters, `str(n)` of a day or a month is still a digit run with value `n`. */
  lemma PaddedField(n: nat)
    requires n <= 31
    ensures |ZFill(DecimalString(n), 2)| >= 2
    ensures forall i :: 0 <= i < |ZFill(DecimalString(n), 2)| ==> IsDigit(ZFill(DecimalString(n), 2)[i])
    ensures ParseInt(ZFill(DecimalString(n), 2)) == Some(n)
  {
    var z := ZFill(DecimalString(n), 2);
    NumberField(n);
    ZFillKeepsValue(DecimalString(n));
    forall i | 0 <= i < |z| ensures IsDigit(z[i]) {
      assert z[i] in z;
    }
  }
}
