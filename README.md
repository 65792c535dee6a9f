# Astrologer helpers in Dafny

A Dafny model of the deterministic helpers of the Czech "astrologer" agent
`Ukoly/09_astrolog/main.py`, with proofs about them:

- `normalize_date` rewrites a "d.m.yyyy" text as "dd.mm.yyyy" and falls back
  to its input.
- The in-memory user list `users_memory` is served by `save_user`,
  `list_all_users`, `get_total_days` and `clear_memory`.
- `get_zodiac_sign` does a first-match scan over twelve month/day ranges.
- `calculate_age` subtracts calendar dates with a borrow from the previous
  month.
- `get_chinese_zodiac` indexes a table of twelve animals.
- `calculate_life_number` reduces a digit sum.
- `get_current_date` contributes its weekday-name table.

The Python that these helpers rest on is modelled explicitly:

- `str.strip`, `str.split`, `str.join`, `str.zfill`, `str(n)` and `int()`
  are in module `PyStr`. `int()` accepts a sign, underscores between
  digits and at most 4300 digits, and skips surrounding white space. The
  white space it skips is that of `strip()` except the separators
  U+001C..U+001F, which CPython's `int()` keeps: "5\x1c" is not a number.
- The proleptic Gregorian `datetime.date` is in module `PyDate`. It covers
  years 1..9999, `toordinal`, `weekday`, and a constructor that raises
  `ValueError`, or `OverflowError` for an argument outside a C `int`.

The modules are:

- `PyStr` and `PyDate`: the Python building blocks.
- `DateFormat`: `normalize_date` and how a date is read from normalized text.
- `Zodiac`, `Age`, `ChineseZodiac` and `Numerology`: the four readings.
- `UserMemory`: the user list, as a class `Memory` whose field `users` the
  methods reassign.
- `CurrentDate`: the weekday names.

The parts of the program that loop or update variables step by step are
methods, with loop invariants where they loop:

- the table scan of `get_zodiac_sign`
- the step-by-step borrow of `calculate_age`
- the `while` loop of `calculate_life_number`
- the enumeration of `list_all_users`

The day `date.today()` would give is a parameter `today` of the operations that read it.

Behaviour the proofs bring out:

- `normalize_date` is idempotent exactly when the third piece of the
  stripped input does not end in white space
  (`DateFormat.NormalizeIdempotent`). That always holds for input with
  exactly three pieces. With a fourth piece it can fail: in "1.2.3 .4" the
  third piece is "3 ", whose space the first call keeps and the second
  strips.
- No calendar check is made in `get_zodiac_sign`, `get_chinese_zodiac` or
  `calculate_life_number`:
  - "15.3" has a zodiac sign, Pisces (`Zodiac.TwoPieceSign`).
  - Month 13 gives the unknown sign.
  - Any integer year has an animal.
  - "1985" has a life number, 5 (`Numerology.YearOnlyLifeNumber`).
  - The life number is 0, which has no meaning, exactly when every digit
    summed is a zero: "", "." and "0.0.0" give 0. Any character other
    than a digit or a dot left in the normalized text, as in "abc", makes
    the format invalid. Pieces after the third are dropped by the
    normalization (`DateFormat.NormalizeDate`), so "1.2.2000.abc" is read
    as "01.02.2000" and gets that date's life number.
- The day figure of `calculate_age` lies in -2..30 and can be negative. On
  1 March 2023 a birth on 31 January 2023 gives 0 years, 1 month and -2 days.
  The month figure is always in 0..11.
- The `OverflowError` of `date()` is not caught by `calculate_age`, so the
  model has a separate `Overflow` outcome. `save_user` catches everything
  and records 0 days.

## Model

| member | source | states |
|---|---|---|
| PyStr.Strip | Ukoly/09_astrolog/main.py:26 | `str.strip()`: the result is empty or starts and ends with non-white-space characters; `LStrip` and `RStrip` remove exactly a white-space prefix and suffix |
| PyStr.StripClean | Ukoly/09_astrolog/main.py:26 | text without surrounding white space is left unchanged by `strip()` |
| PyStr.RStripAppend | Ukoly/09_astrolog/main.py:26 | right-stripping `a + b` where `a` ends in a non-space strips only `b` |
| PyStr.StripKeepsPieces | Ukoly/09_astrolog/main.py:26 | stripping never changes how many pieces a split on "." yields |
| PyStr.Split | Ukoly/09_astrolog/main.py:26 | `split(sep)` gives at least one piece, and no piece contains the separator |
| PyStr.JoinSplit | Ukoly/09_astrolog/main.py:26 | joining the pieces of a split with the separator gives the text back |
| PyStr.SplitJoin | Ukoly/09_astrolog/main.py:30 | splitting a join of separator-free pieces gives exactly those pieces back |
| PyStr.ConcatSplit | Ukoly/09_astrolog/main.py:230-231 | `"".join(s.split(c))` is `s` with every `c` deleted |
| PyStr.ZFill | Ukoly/09_astrolog/main.py:27-28 | `zfill(width)`: the length is the larger of the text's and the width; text already that long is unchanged; otherwise the zeros go in front of the text, or right after a leading sign, which stays first, and the rest of the text follows unchanged |
| PyStr.ZFillKeepsValue | Ukoly/09_astrolog/main.py:27-28 | padding to width 2 keeps the integer `int()` reads and is idempotent |
| PyStr.IntStrip | Ukoly/09_astrolog/main.py:117-118 | the white space `int()` skips is removed from both ends: the result is empty or starts and ends with a character `int()` does not skip |
| PyStr.IntLStrip | Ukoly/09_astrolog/main.py:117-118 | the result is a suffix of the text, every character removed before it is white space `int()` skips, and it does not start with such a character |
| PyStr.IntRStrip | Ukoly/09_astrolog/main.py:117-118 | the result is a prefix of the text, every character removed after it is white space `int()` skips, and it does not end with such a character |
| PyStr.IntStripSlice | Ukoly/09_astrolog/main.py:117-118 | the stripped text is a contiguous slice of the text, and everything before it and after it is white space `int()` skips |
| PyStr.ParseInt | Ukoly/09_astrolog/main.py:117-118 | what `int()` accepts ends in a digit once the skipped white space is removed, and a negative value has a leading minus sign |
| PyStr.ParseIntValue | Ukoly/09_astrolog/main.py:117-118 | skipped white space, an optional '+' or '-', a digit group with underscores only between digits and at most 4300 digits, and skipped white space again are accepted by `int()`, with the group's value negated after a '-'; with `ParseIntShape` this says exactly what `int()` accepts |
| PyStr.ParseIntShape | Ukoly/09_astrolog/main.py:117-118 | what `int()` accepts, once the skipped white space is removed, is an optional sign followed by a digit group: digits with single underscores only between them, at most 4300 of them, read as their decimal value and negated after a '-'; so "1__0", "_1", "+_1" and longer digit runs are rejected |
| PyStr.SeparatorNotSkipped | Ukoly/09_astrolog/main.py:117-118 | a digit followed by one of U+001C..U+001F is not a number for `int()`, though `strip()` removes the separator; a digit followed by a newline is read as the digit |
| PyStr.ParseIntDigits | Ukoly/09_astrolog/main.py:117-118 | `int()` of a non-empty run of at most 4300 decimal digits is their decimal value |
| PyStr.ParseIntChar | Ukoly/09_astrolog/main.py:234 | `int()` of one character is its digit value, and fails for a non-digit |
| PyStr.DecimalString | Ukoly/09_astrolog/main.py:236 | `str(n)` for `n >= 0` is a non-empty run of decimal digits |
| PyStr.DecimalStringValue | Ukoly/09_astrolog/main.py:236 | the digits of `str(n)` have decimal value `n` |
| PyStr.DecimalStringRoundTrip | Ukoly/09_astrolog/main.py:236 | `int(str(n)) == n` while `str(n)` has at most 4300 digits |
| PyStr.SumOfCharIntsAppend | Ukoly/09_astrolog/main.py:234 | `sum(int(d) for d in a + b)` is the sum over `a` plus the sum over `b` |
| PyStr.SumOfDecimalString | Ukoly/09_astrolog/main.py:236 | `sum(int(d) for d in str(n))` is the decimal digit sum of `n` |
| PyDate.DaysInMonth | Ukoly/09_astrolog/main.py:178 | every month has 28 to 31 days, and 29 exactly for February of a leap year |
| PyDate.MakeDate | Ukoly/09_astrolog/main.py:58 | `date(y, m, d)` succeeds exactly when the triple is a calendar date of years 1..9999, and raises `OverflowError` exactly when an argument is outside a C `int` |
| PyDate.Weekday | Ukoly/09_astrolog/main.py:45 | `weekday()` is in 0..6 |
| PyDate.Ordinal | Ukoly/09_astrolog/main.py:59 | `toordinal()` lies in 1..3652059, the ordinals of 1 January of year 1 and of 31 December 9999 |
| PyDate.MonthStep | Ukoly/09_astrolog/main.py:178 | the ordinal of the first of the next month exceeds that of the first of a month by the month's length |
| PyDate.YearStep | Ukoly/09_astrolog/main.py:186 | a year adds its own length to the day count before the next one |
| PyDate.OrdinalNextDay | Ukoly/09_astrolog/main.py:45 | the day after a date is a valid date, one ordinal later and one weekday later |
| PyDate.OrdinalOrder | Ukoly/09_astrolog/main.py:186 | one date precedes another exactly when its ordinal is smaller, and two dates are equal exactly when their ordinals are |
| DateFormat.NormalizeDate | Ukoly/09_astrolog/main.py:23-32 | with fewer than 3 pieces the input is returned as given; otherwise the output splits into exactly the day and the month zero-padded to at least two characters and the untouched third piece, extra pieces dropped |
| DateFormat.ThreeFields | Ukoly/09_astrolog/main.py:30 | three dot-free pieces joined by dots split back into exactly those pieces |
| DateFormat.NormalizeFields | Ukoly/09_astrolog/main.py:27-28 | with at least 3 pieces, a day or month that `int()` reads keeps its value after the padding |
| DateFormat.NormalizeRejectsShort | Ukoly/09_astrolog/main.py:31-32 | with fewer than 3 pieces the original, unstripped input is returned, and no date can be read from it |
| DateFormat.NormalizedStart | Ukoly/09_astrolog/main.py:26-30 | the output of a successful normalization does not start with white space |
| DateFormat.NormalizeIdempotent | Ukoly/09_astrolog/main.py:23-32 | normalizing twice equals normalizing once exactly when the third piece does not end in white space, which always holds for input with exactly 3 pieces |
| DateFormat.ParseBirth | Ukoly/09_astrolog/main.py:157-164 | malformed when the text has fewer than 3 pieces or `int()` rejects one of the first three; otherwise a date is read exactly when the day, month and year read form a valid calendar date, and it is that date; too large for `date()` exactly when one of them lies outside a C `int` |
| DateFormat.ReadDate | Ukoly/09_astrolog/main.py:161-162 | for the integers read, a date exactly when they form a valid calendar date, and that date; `OverflowError` exactly when one lies outside a C `int`; malformed when one was not read |
| DateFormat.BirthFields | Ukoly/09_astrolog/main.py:157-162 | a date read from text has as day, month and year the integers `int()` reads from its first three pieces |
| DateFormat.BirthRoundTrip | Ukoly/09_astrolog/main.py:23-32 | for every valid date, "d.m.yyyy" normalizes to "dd.mm.yyyy", normalizing that leaves it alone, and the date read back from it is the date itself |
| DateFormat.NormalizePreservesBirth | Ukoly/09_astrolog/main.py:156-162 | when the stripped input has at least 3 pieces and `int()` reads its day and month, the date read from the output is the date read from the stripped input; a day or month `int()` rejects can be changed by the padding ("+.1.3000000000" reads as malformed, its normalization "+0.01.3000000000" as too large) |
| DateFormat.PaddingReadsSign | Ukoly/09_astrolog/main.py:26-30 | for "+.1." followed by a year of decimal digits too large for a C `int`, the stripped text reads as malformed, the normalization splits into "+0", "01" and the year, and it reads as too large for `date()` |
| Zodiac.Matches | Ukoly/09_astrolog/main.py:137-146 | a row matches only in its start or end month; for a row spanning two months, it matches exactly from the start day on in the start month or up to the end day in the end month, so the December-January branch agrees with the general one |
| Zodiac.CuspRowMatches | Ukoly/09_astrolog/main.py:122-146 | for a month 1..12, the row of the sign that began on the month's cusp, or of the sign before it when the day is before the cusp, matches the month and day |
| Zodiac.RowIsCusp | Ukoly/09_astrolog/main.py:122-146 | for a month 1..12, no row other than that cusp row matches |
| Zodiac.TwoPieceSign | Ukoly/09_astrolog/main.py:113-146 | "15.3" is left alone by the normalization, its day and month are read as 15 and 3 though it has no year, and the table gives Pisces for them |
| Zodiac.LabelNamesSign | Ukoly/09_astrolog/main.py:122-134 | no two signs share a label, so the label reported names the sign |
| Zodiac.DayMonth | Ukoly/09_astrolog/main.py:115-118 | whenever a birth date can be read from the text, the day and month read are that date's |
| Zodiac.TablePartitions | Ukoly/09_astrolog/main.py:122-146 | for every month 1..12 and every day number, exactly one row of the table matches, and it is the sign that began on that month's cusp or the sign before it; for any other month no row matches |
| Zodiac.RowMonths | Ukoly/09_astrolog/main.py:122-135 | row `j` runs from its month's cusp day to the day before the next month's cusp |
| Zodiac.FindSign | Ukoly/09_astrolog/main.py:137-148 | the scan returns the sign of the first matching row, none exactly when no row matches, which is the cusp-table sign for months 1..12 and none otherwise |
| Zodiac.GetZodiacSign | Ukoly/09_astrolog/main.py:110-148 | invalid format exactly when day or month cannot be read; otherwise the cusp-table sign or, for a month outside 1..12, the unknown sign; for a valid birth date, always that date's sign |
| Age.DescribedAge | Ukoly/09_astrolog/main.py:169-186 | the borrowed month has 28 to 31 days, the day figure lies in -2..30, and the year figure is non-negative exactly when the birth is not after today, which is exactly when the day count is non-negative |
| Age.NegativeDays | Ukoly/09_astrolog/main.py:171-179 | on 1 March 2023 a birth on 31 January 2023 gives 0 years, 1 month and -2 days |
| Age.Elapsed | Ukoly/09_astrolog/main.py:169-186 | the step-by-step borrow gives whole months split into years and months 0..11, the day difference after the borrow from the previous month's length (31 for December), and the ordinal difference as total days |
| Age.CalculateAge | Ukoly/09_astrolog/main.py:152-188 | invalid format exactly when day, month or year cannot be read or form no date; overflow exactly when `date()` would raise `OverflowError`; otherwise the figures described for the birth date on `today` |
| ChineseZodiac.AnimalIndex | Ukoly/09_astrolog/main.py:217 | `(year - 1900) % 12` with Python's `%` is always in 0..11 |
| ChineseZodiac.AnimalOf | Ukoly/09_astrolog/main.py:217-218 | the animal given a year sits at position `(year - 1900) % 12` of the table |
| ChineseZodiac.YearOf | Ukoly/09_astrolog/main.py:197-198 | whenever a birth date can be read from the text, the year read is that date's; a year is read only from text with at least 3 pieces |
| ChineseZodiac.AnimalPeriodic | Ukoly/09_astrolog/main.py:217-218 | years 12 apart get the same index and the same animal, for any integer multiple of 12 |
| ChineseZodiac.AnimalsOncePerCycle | Ukoly/09_astrolog/main.py:202-218 | any twelve consecutive years get each of the twelve animals exactly once |
| ChineseZodiac.AsWrittenShifted | Ukoly/09_astrolog/main.py:202-218 | the lookup as written gives the traditional animal of the year four years earlier, so it is wrong for every year (2024 gives the Rat) |
| ChineseZodiac.TraditionalAnimal | Ukoly/09_astrolog/main.py:202-218 | indexing the same table by `year % 12` gives the traditional cycle anchored at the Rat in 1900 |
| ChineseZodiac.GetChineseZodiac | Ukoly/09_astrolog/main.py:192-220 | invalid format exactly when the third piece cannot be read as an integer; otherwise the program's animal, the traditional animal of the year minus four |
| ChineseZodiac.ReplyFor | Ukoly/09_astrolog/main.py:197-218 | the reply is invalid exactly when no year was read; otherwise the program's animal for the year |
| Numerology.DigitSumDecreases | Ukoly/09_astrolog/main.py:235-236 | a digit sum never exceeds its number and is smaller for any number above 9, so the loop terminates |
| Numerology.DigitSumMod9 | Ukoly/09_astrolog/main.py:236 | a digit sum leaves the remainder modulo 9 unchanged |
| Numerology.DigitSumPositive | Ukoly/09_astrolog/main.py:236 | a positive number has a positive digit sum |
| Numerology.Reduce | Ukoly/09_astrolog/main.py:235-236 | the reduction ends at a value at most 9 or at 11, 22 or 33; it never grows; it leaves a number needing no reduction, a master number in particular, alone |
| Numerology.ReduceFacts | Ukoly/09_astrolog/main.py:235-236 | the reduction keeps the value modulo 9 and keeps a positive value positive |
| Numerology.DigitalRoot | Ukoly/09_astrolog/main.py:235-236 | a reduction of a positive number that ends at a single digit ends at its digital root, 1 + (n - 1) % 9 |
| Numerology.ReduceLifeNumber | Ukoly/09_astrolog/main.py:235-236 | the `while` loop computes the reduction: the result is at most 9 or a master number and agrees with the start modulo 9 |
| Numerology.MeaningOf | Ukoly/09_astrolog/main.py:240-255 | every possible life number except 0 has a meaning in the table |
| Numerology.SumOfCharIntsDigits | Ukoly/09_astrolog/main.py:234 | the character-wise sum succeeds exactly when every character is a decimal digit, and is then non-negative |
| Numerology.DateDigitSum | Ukoly/09_astrolog/main.py:230-234 | the summed characters are the normalized text with its dots removed; the sum fails exactly when one of them is not a digit, and is otherwise non-negative |
| Numerology.SumZero | Ukoly/09_astrolog/main.py:234 | a character-wise digit sum is 0 exactly when every character is the digit 0 |
| Numerology.ZeroLifeNumber | Ukoly/09_astrolog/main.py:230-236 | the date's digit sum, and so its life number, is 0 exactly when the normalized text holds nothing but zeros besides its dots |
| Numerology.YearOnlyLifeNumber | Ukoly/09_astrolog/main.py:228-236 | "1985", which has no day or month, is left alone by the normalization, its digits sum to 23, and 23 reduces to the life number 5 |
| Numerology.LifeNumberFrom | Ukoly/09_astrolog/main.py:235-255 | from a digit sum, the reply carries its reduction and the meaning, which is present exactly when the number is not 0 |
| Numerology.CalculateLifeNumber | Ukoly/09_astrolog/main.py:224-256 | invalid format exactly when a non-digit other than "." is left after normalization; otherwise the reduced digit sum of the date with its meaning |
| UserMemory.DaysAliveFacts | Ukoly/09_astrolog/main.py:56-61 | the day count `DaysAlive` of `save_user`: for a valid birth date, the ordinal difference from today, non-negative exactly when the birth is not after today and 0 exactly on the birth day; 0 whenever no date can be read |
| UserMemory.SumDaysAppend | Ukoly/09_astrolog/main.py:94 | the total `SumDays` of the day counts: appending a record adds its day count to the total |
| UserMemory.SumDaysNonNegative | Ukoly/09_astrolog/main.py:94 | records with non-negative day counts have a non-negative total |
| UserMemory.Memory.constructor | Ukoly/09_astrolog/main.py:36 | the list starts empty |
| UserMemory.Memory.SaveUser | Ukoly/09_astrolog/main.py:49-68 | exactly one record is appended and earlier records are unchanged; the record has the name, the normalized birth date and that date's day count; the total grows by that count |
| UserMemory.Memory.ListAllUsers | Ukoly/09_astrolog/main.py:73-84 | the empty message exactly when the list is empty; otherwise one row per record, in order, numbered from 1, with the record's fields |
| UserMemory.Memory.TotalDays | Ukoly/09_astrolog/main.py:87-97 | the empty message exactly when the list is empty; otherwise the record count and the sum of the day counts |
| UserMemory.Memory.ClearMemory | Ukoly/09_astrolog/main.py:100-106 | the list is empty afterwards, whatever it held, and the former length is reported |
| UserMemory.SaveTwice | Ukoly/09_astrolog/main.py:49-97 | two saves into a fresh memory are listed in order as 1 and 2, and the total is the sum of their day counts |
| CurrentDate.DayNamesCycle | Ukoly/09_astrolog/main.py:43-45 | 1 January of year 1 is a Monday ("pondělí"), and the day after any date gets the next name of the week, Sunday wrapping to Monday |
| CurrentDate.DayName | Ukoly/09_astrolog/main.py:43-45 | the name given a day is one of the seven, the one whose position is the day's weekday |
| CurrentDate.IndexOf | Ukoly/09_astrolog/main.py:44 | a name's position in the weekday table, or -1 exactly for a name not in it |

## Left out

- `main()` is left out. It is the interactive loop, `.env` reading, API-key checks, the server probe and the chat-agent calls: I/O and foreign agent-framework code.
- `get_current_date` is modelled only as the weekday-name lookup. The clock becomes the `today` parameter of the operations that read it; `strftime` formatting is not modelled.
- The message texts are not modelled: the animal names and traits of `get_chinese_zodiac`, emoji, Czech wording, `{total:,}` with its commas replaced by spaces, and the text `list_all_users` accumulates. Replies are datatypes carrying the numbers and labels the messages show.
- `Ukoly/01_llm_calculator_tool/01_llm_calculator_tool.py` is not part of this model. It is an LLM-client round trip around float arithmetic.
- PyStr.ParseInt: accepts only ASCII decimal digits. Python's `int()` also accepts other Unicode decimal digits, such as Arabic-Indic ones.
- PyStr.ParseInt: fixes the digit limit at CPython's default of 4300. The limit is configurable at run time and absent before Python 3.11 and the security releases 3.10.7, 3.9.14, 3.8.14 and 3.7.14 that brought it to older versions.
- PyStr.CharInt: accepts only ASCII decimal digits, for the same reason, so a date written with other Unicode digits gets no life number in the model.
- The pure-Python `datetime` fallback is not modelled. `PyDate.MakeDate` follows the C implementation, which checks each argument against a C `int` before checking the calendar.

## Findings

| source | as written | input that shows it | evidently intended | confidence | as-written member | corrected member |
|---|---|---|---|---|---|---|
| Ukoly/09_astrolog/main.py:202-218 | the table starts with the Monkey and is indexed by `(year - 1900) % 12` | 2024 (index 4) gives "Krysa" (Rat); 2024 is a year of the Dragon, and 1900 gives the Monkey instead of the Rat | the table's order is that of `year % 12` (Monkey at 0), so index by `year % 12`, giving the Rat for 1900 and the Dragon for 2024 | high; not executed | ChineseZodiac.AsWrittenShifted | ChineseZodiac.TraditionalAnimal |

`get_chinese_zodiac` itself (`ChineseZodiac.GetChineseZodiac`) keeps the
as-written lookup, because it models what the program reports. The
corrected lookup is `ChineseZodiac.TraditionalAnimal`, proved equal to the
traditional cycle that starts from the Rat in 1900.
