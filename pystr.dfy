/**
  The Python `str` built-ins the astrologer's helpers rely on, given the
  meaning CPython gives them: `strip()`, `split(sep)`, `sep.join(parts)`,
  `"".join(parts)`, `zfill(width)`, `int(text)` in base 10 and `str(n)` for a
  non-negative `n`.
 */
module PyStr {

  datatype Option<T> = None | Some(value: T)

  /** The characters `str.isspace()` accepts, which `strip()` removes. */
  predicate IsSpace(c: char) {
    ('\t' <= c <= '\r') || ('\U{1C}' <= c <= ' ') || c == '\U{85}' || c == '\U{A0}'
    || c == '\U{1680}' || ('\U{2000}' <= c <= '\U{200A}') || c == '\U{2028}' || c == '\U{2029}'
    || c == '\U{202F}' || c == '\U{205F}' || c == '\U{3000}'
  }

  /** `s.lstrip()`: the suffix of `s` left after its leading white space. */
  function LStrip(s: string): (r: string)
    ensures |r| <= |s| && r == s[|s| - |r|..]
    ensures r == [] || !IsSpace(r[0])
    ensures forall i :: 0 <= i < |s| - |r| ==> IsSpace(s[i])
  {
    if s != [] && IsSpace(s[0]) then LStrip(s[1..]) else s
  }

  /** `s.rstrip()`: the prefix of `s` left before its trailing white space. */
  function RStrip(s: string): (r: string)
    ensures |r| <= |s| && r == s[..|r|]
    ensures r == [] || !IsSpace(r[|r| - 1])
    ensures forall i :: |r| <= i < |s| ==> IsSpace(s[i])
  {
    if s != [] && IsSpace(s[|s| - 1]) then RStrip(s[..|s| - 1]) else s
  }

  /** `s.strip()`. */
  function Strip(s: string): (r: string)
    ensures r == [] || (!IsSpace(r[0]) && !IsSpace(r[|r| - 1]))
  {
    RStrip(LStrip(s))
  }

  /** Stripping removes nothing from a string that neither starts nor ends with white space. */
  lemma StripClean(s: string)
    requires s == [] || (!IsSpace(s[0]) && !IsSpace(s[|s| - 1]))
    ensures Strip(s) == s
  {
  }

  /** Trailing white space of `b` is all `rstrip` removes from `a + b` once `a` ends in a visible character. */
  lemma {:induction false} RStripAppend(a: string, b: string)
    requires a == [] || !IsSpace(a[|a| - 1])
    ensures RStrip(a + b) == a + RStrip(b)
    decreases |b|
  {
    if b == [] {
      assert a + b == a;
    } else if IsSpace(b[|b| - 1]) {
      assert (a + b)[..|a + b| - 1] == a + b[..|b| - 1];
      RStripAppend(a, b[..|b| - 1]);
    } else {
      assert (a + b)[|a + b| - 1] == b[|b| - 1];
    }
  }

  /** `s.split(sep)` for a one-character separator: the maximal separator-free pieces, in order. */
  function Split(s: string, sep: char): (parts: seq<string>)
    ensures |parts| >= 1
    ensures forall i :: 0 <= i < |parts| ==> sep !in parts[i]
  {
    if s == [] then [[]]
    else
      var rest := Split(s[1..], sep);
      if s[0] == sep then [[]] + rest
      else [[s[0]] + rest[0]] + rest[1..]
  }

  /** `sep.join(parts)`. */
  function Join(parts: seq<string>, sep: char): string
    requires |parts| >= 1
  {
    if |parts| == 1 then parts[0] else parts[0] + [sep] + Join(parts[1..], sep)
  }

  /** `"".join(parts)`. */
  function Concat(parts: seq<string>): string {
    if parts == [] then [] else parts[0] + Concat(parts[1..])
  }

  /** `s` with every occurrence of `c` deleted. */
  function Without(s: string, c: char): (r: string)
    ensures c !in r
    ensures |r| <= |s|
  {
    if s == [] then [] else (if s[0] == c then [] else [s[0]]) + Without(s[1..], c)
  }

  /** Joining the pieces of a split with the same separator gives back the string. */
  lemma {:induction false} JoinSplit(s: string, sep: char)
    ensures Join(Split(s, sep), sep) == s
  {
    if s != [] {
      var rest := Split(s[1..], sep);
      JoinSplit(s[1..], sep);
      if s[0] == sep {
        assert Split(s, sep)[1..] == rest;
      } else {
        var parts := Split(s, sep);
        if |rest| == 1 {
          assert parts == [[s[0]] + rest[0]];
        } else {
          assert parts[1..] == rest[1..];
          assert Join(parts, sep) == [s[0]] + rest[0] + [sep] + Join(rest[1..], sep);
        }
        assert [s[0]] + s[1..] == s;
      }
    }
  }

  /** Separator-free characters in front of a string only extend its first piece. */
  lemma {:induction false} SplitPrefix(a: string, rest: string, sep: char)
    requires sep !in a
    ensures Split(a + rest, sep) == [a + Split(rest, sep)[0]] + Split(rest, sep)[1..]
    decreases |a|
  {
    if a == [] {
      assert a + rest == rest;
      var p := Split(rest, sep);
      assert p == [p[0]] + p[1..];
      assert a + p[0] == p[0];
    } else {
      assert (a + rest)[1..] == a[1..] + rest;
      assert (a + rest)[0] == a[0];
      SplitPrefix(a[1..], rest, sep);
      assert [a[0]] + (a[1..] + Split(rest, sep)[0]) == a + Split(rest, sep)[0];
    }
  }

  /** Splitting a join of separator-free pieces gives back the pieces. */
  lemma {:induction false} SplitJoin(parts: seq<string>, sep: char)
    requires |parts| >= 1
    requires forall i :: 0 <= i < |parts| ==> sep !in parts[i]
    ensures Split(Join(parts, sep), sep) == parts
  {
    if |parts| == 1 {
      SplitPrefix(parts[0], [], sep);
      assert parts[0] + [] == parts[0];
    } else {
      var tail := Join(parts[1..], sep);
      SplitJoin(parts[1..], sep);
      assert Join(parts, sep) == parts[0] + ([sep] + tail);
      SplitPrefix(parts[0], [sep] + tail, sep);
      assert ([sep] + tail)[1..] == tail;
      assert Split([sep] + tail, sep) == [[]] + parts[1..];
      assert parts[0] + [] == parts[0];
    }
  }

  /** Text without the separator is one piece. */
  lemma SplitNoSep(s: string, sep: char)
    requires sep !in s
    ensures Split(s, sep) == [s]
  {
    SplitPrefix(s, [], sep);
    assert s + [] == s;
  }

  /** Two separator-free pieces around one separator split into those two. */
  lemma SplitTwo(a: string, b: string, sep: char)
    requires sep !in a && sep !in b
    ensures Split(a + [sep] + b, sep) == [a, b]
  {
    assert [a, b][1..] == [b];
    SplitJoin([a, b], sep);
  }

  /** Deleting a character the text does not hold leaves it unchanged. */
  lemma {:induction false} WithoutAbsent(s: string, c: char)
    requires c !in s
    ensures Without(s, c) == s
  {
    if s != [] {
      assert s[0] in s;
      assert forall x :: x in s[1..] ==> x in s;
      WithoutAbsent(s[1..], c);
      assert [s[0]] + s[1..] == s;
    }
  }

  /** `"".join(s.split(c))` is `s` with the separators removed. */
  lemma {:induction false} ConcatSplit(s: string, c: char)
    ensures Concat(Split(s, c)) == Without(s, c)
  {
    if s != [] {
      var rest := Split(s[1..], c);
      ConcatSplit(s[1..], c);
      assert Concat(rest) == rest[0] + Concat(rest[1..]);
      if s[0] == c {
        assert ([[]] + rest)[1..] == rest;
      } else {
        var parts := [[s[0]] + rest[0]] + rest[1..];
        assert parts[1..] == rest[1..];
        assert Concat(parts) == [s[0]] + rest[0] + Concat(rest[1..]);
      }
    }
  }

  /** Appending a non-separator extends the last piece. */
  lemma {:induction false} SplitAppendChar(s: string, c: char, sep: char)
    requires c != sep
    ensures |Split(s + [c], sep)| == |Split(s, sep)|
  {
    if s == [] {
      assert s + [c] == [c] && [c][1..] == [];
    } else {
      assert (s + [c])[0] == s[0] && (s + [c])[1..] == s[1..] + [c];
      SplitAppendChar(s[1..], c, sep);
    }
  }

  /** Stripping white space never changes how many pieces a split on a visible separator yields. */
  lemma {:induction false} StripKeepsPieces(s: string, sep: char)
    requires !IsSpace(sep)
    ensures |Split(Strip(s), sep)| == |Split(s, sep)|
  {
    LStripKeepsPieces(s, sep);
    RStripKeepsPieces(LStrip(s), sep);
  }

  lemma {:induction false} LStripKeepsPieces(s: string, sep: char)
    requires !IsSpace(sep)
    ensures |Split(LStrip(s), sep)| == |Split(s, sep)|
  {
    if s != [] && IsSpace(s[0]) {
      LStripKeepsPieces(s[1..], sep);
    }
  }

  lemma {:induction false} RStripKeepsPieces(s: string, sep: char)
    requires !IsSpace(sep)
    ensures |Split(RStrip(s), sep)| == |Split(s, sep)|
    decreases |s|
  {
    if s != [] && IsSpace(s[|s| - 1]) {
      var init := s[..|s| - 1];
      RStripKeepsPieces(init, sep);
      SplitAppendChar(init, s[|s| - 1], sep);
      assert init + [s[|s| - 1]] == s;
    }
  }

  /** A run of `n` zero characters. */
  function Zeros(n: nat): (z: string)
    ensures |z| == n && forall i :: 0 <= i < n ==> z[i] == '0'
  {
    seq(n, _ => '0')
  }

  /** `s.zfill(width)`: zeros on the left up to `width`, kept behind a leading sign. */
  function ZFill(s: string, width: nat): (r: string)
    ensures |r| == if |s| >= width then |s| else width
    ensures |s| >= width ==> r == s
    ensures |s| < width && !(|s| > 0 && (s[0] == '+' || s[0] == '-')) ==>
      r[width - |s|..] == s && forall i :: 0 <= i < width - |s| ==> r[i] == '0'
    ensures |s| < width && |s| > 0 && (s[0] == '+' || s[0] == '-') ==>
      r[0] == s[0] && r[width - |s| + 1..] == s[1..] && forall i :: 1 <= i <= width - |s| ==> r[i] == '0'
    ensures forall c :: c in r ==> c in s || c == '0'
  {
    if |s| >= width then s
    else if |s| > 0 && (s[0] == '+' || s[0] == '-') then [s[0]] + Zeros(width - |s|) + s[1..]
    else Zeros(width - |s|) + s
  }

  predicate IsDigit(c: char) {
    '0' <= c <= '9'
  }

  function DigitValue(c: char): (v: nat)
    requires IsDigit(c)
    ensures v < 10
  {
    c as int - '0' as int
  }

  function DigitChar(v: nat): (c: char)
    requires v < 10
    ensures IsDigit(c) && DigitValue(c) == v
  {
    ('0' as int + v) as char
  }

  /** The default limit on the number of digits `int()` converts (CPython 3.11 and later, and the 3.7 to 3.10 security releases that added it). */
  const MaxStrDigits: nat := 4300

  /** The body `int()` accepts after the sign: digits, with single underscores only between digits. */
  predicate IsDigitGroup(u: string) {
    |u| >= 1 && IsDigit(u[0]) && IsDigit(u[|u| - 1])
    && (forall i :: 0 <= i < |u| ==> IsDigit(u[i]) || u[i] == '_')
    && (forall i :: 0 <= i < |u| - 1 ==> u[i] == '_' ==> u[i + 1] != '_')
  }

  function CountDigits(u: string): (n: nat)
    ensures n <= |u|
  {
    if u == [] then 0 else CountDigits(u[..|u| - 1]) + (if IsDigit(u[|u| - 1]) then 1 else 0)
  }

  /** The decimal value of the digits of `u`, underscores skipped. */
  function DigitsValue(u: string): nat {
    if u == [] then 0
    else if IsDigit(u[|u| - 1]) then 10 * DigitsValue(u[..|u| - 1]) + DigitValue(u[|u| - 1])
    else DigitsValue(u[..|u| - 1])
  }

  /**
    The white space `int()` skips around its digits: that of `str.isspace()`
    except the ASCII separators U+001C..U+001F, which CPython's `int()` does
    not skip although `strip()` removes them.
   */
  predicate IntSpace(c: char) {
    IsSpace(c) && !('\U{1C}' <= c <= '\U{1F}')
  }

  /**
    `s` without the leading and trailing white space `int()` skips; none is
    left at its ends, and `IntStripSlice` says what was removed.
   */
  function IntStrip(s: string): (r: string)
    ensures r == [] || (!IntSpace(r[0]) && !IntSpace(r[|r| - 1]))
  {
    IntRStrip(IntLStrip(s))
  }

  /** What `IntStrip` removes is white space `int()` skips, before and after a slice of `s`. */
  lemma IntStripSlice(s: string)
    ensures exists k ::
              0 <= k <= |s| && IntStrip(s) <= s[k..]
              && (forall i :: 0 <= i < k ==> IntSpace(s[i]))
              && (forall i :: k + |IntStrip(s)| <= i < |s| ==> IntSpace(s[i]))
  {
    var l := IntLStrip(s);
    assert IntStrip(s) <= s[|s| - |l|..];
  }

  /** The suffix of `s` left after the white space `int()` skips at its start. */
  function IntLStrip(s: string): (r: string)
    ensures r == [] || !IntSpace(r[0])
    ensures |r| <= |s| && r == s[|s| - |r|..]
    ensures forall i :: 0 <= i < |s| - |r| ==> IntSpace(s[i])
  {
    if s != [] && IntSpace(s[0]) then IntLStrip(s[1..]) else s
  }

  /** The prefix of `s` left before the white space `int()` skips at its end. */
  function IntRStrip(s: string): (r: string)
    ensures r == [] || !IntSpace(r[|r| - 1])
    ensures |r| <= |s| && r == s[..|r|]
    ensures forall i :: |r| <= i < |s| ==> IntSpace(s[i])
  {
    if s != [] && IntSpace(s[|s| - 1]) then IntRStrip(s[..|s| - 1]) else s
  }

  /** Text that neither starts nor ends with white space `int()` skips is read as it stands. */
  lemma IntStripClean(s: string)
    requires s == [] || (!IntSpace(s[0]) && !IntSpace(s[|s| - 1]))
    ensures IntStrip(s) == s
  {
  }

  /**
    `int(s)` in base 10; `None` where Python raises `ValueError`. Once the
    surrounding white space is skipped, what it accepts ends in a digit, and
    a negative result needs a leading minus sign; `ParseIntShape` gives the
    rest of the shape.
   */
  function ParseInt(s: string): (r: Option<int>)
    ensures r.Some? ==>
      var t := IntStrip(s);
      |t| >= 1 && IsDigit(t[|t| - 1]) && (r.value < 0 ==> t[0] == '-')
  {
    SignedEnd(IntStrip(s));
    ParseSigned(IntStrip(s))
  }

  lemma SignedEnd(t: string)
    ensures ParseSigned(t).Some? ==>
      |t| >= 1 && IsDigit(t[|t| - 1]) && (ParseSigned(t).value < 0 ==> t[0] == '-')
  {
    if ParseSigned(t).Some? && |t| > 0 && (t[0] == '-' || t[0] == '+') {
      assert t[|t| - 1] == t[1..][|t| - 2];
    }
  }

  /**
    Everything `int()` accepts between the skipped white space is an optional
    sign followed by a digit group: digits with single underscores only
    between them, at most `MaxStrDigits` digits, read as their decimal value,
    negated after a minus sign. This is the converse of `ParseIntValue`.
   */
  lemma ParseIntShape(s: string)
    ensures ParseInt(s).Some? ==>
      var t := IntStrip(s);
      forall i :: 0 <= i < |t| ==> IsDigit(t[i]) || t[i] == '_' || (i == 0 && (t[i] == '+' || t[i] == '-'))
    ensures ParseInt(s).Some? ==>
      var t := IntStrip(s);
      var u := if |t| > 0 && (t[0] == '+' || t[0] == '-') then t[1..] else t;
      IsDigitGroup(u) && CountDigits(u) <= MaxStrDigits
      && ParseInt(s).value == if |t| > 0 && t[0] == '-' then -(DigitsValue(u) as int) else DigitsValue(u) as int
  {
    var t := IntStrip(s);
    if ParseSigned(t).Some? && |t| > 0 && (t[0] == '-' || t[0] == '+') {
      var u := t[1..];
      assert IsDigitGroup(u);
      forall i | 1 <= i < |t| ensures IsDigit(t[i]) || t[i] == '_' {
        assert t[i] == u[i - 1];
      }
    }
  }

  /**
    What `int()` reads: white space it skips, an optional sign, and digits
    with single underscores between them, within the digit limit, are
    accepted, with the digits' decimal value, negated after a minus sign.
    With its converse `ParseIntShape` this is exactly what `int()` accepts.
   */
  lemma ParseIntValue(w1: string, g: string, u: string, w2: string)
    requires forall i :: 0 <= i < |w1| ==> IntSpace(w1[i])
    requires forall i :: 0 <= i < |w2| ==> IntSpace(w2[i])
    requires g == "" || g == "+" || g == "-"
    requires IsDigitGroup(u) && CountDigits(u) <= MaxStrDigits
    ensures ParseInt(w1 + g + u + w2) == Some(if g == "-" then -(DigitsValue(u) as int) else DigitsValue(u) as int)
  {
    var t := g + u;
    assert w1 + g + u + w2 == w1 + t + w2;
    StripAround(w1, t, w2);
    SignedGroup(g, u);
    ParseOfStripped(w1 + t + w2, t);
  }

  /** `int()` reads what is left once the white space it skips is removed. */
  lemma ParseOfStripped(s: string, t: string)
    requires IntStrip(s) == t
    ensures ParseInt(s) == ParseSigned(t)
  {
  }

  /** `int()` skips white space around a text that itself starts and ends with other characters. */
  lemma StripAround(w1: string, t: string, w2: string)
    requires forall i :: 0 <= i < |w1| ==> IntSpace(w1[i])
    requires forall i :: 0 <= i < |w2| ==> IntSpace(w2[i])
    requires t != [] && !IntSpace(t[0]) && !IntSpace(t[|t| - 1])
    ensures IntStrip(w1 + t + w2) == t
  {
    assert w1 + t + w2 == w1 + (t + w2);
    IntLStripSpaces(w1, t + w2);
    assert (t + w2)[0] == t[0];
    IntRStripSpaces(t, w2);
  }

  /** An optional sign and a digit group within the limit are read as the signed value of the digits. */
  lemma SignedGroup(g: string, u: string)
    requires g == "" || g == "+" || g == "-"
    requires IsDigitGroup(u) && CountDigits(u) <= MaxStrDigits
    ensures ParseSigned(g + u) == Some(if g == "-" then -(DigitsValue(u) as int) else DigitsValue(u) as int)
  {
    if g == "" {
      assert g + u == u && u[0] != '-' && u[0] != '+';
    } else {
      assert (g + u)[0] == g[0] && (g + u)[1..] == u;
    }
  }

  /** White space `int()` skips, put before a text, is all `IntLStrip` removes more. */
  lemma {:induction false} IntLStripSpaces(w: string, t: string)
    requires forall i :: 0 <= i < |w| ==> IntSpace(w[i])
    ensures IntLStrip(w + t) == IntLStrip(t)
  {
    if w != [] {
      assert (w + t)[0] == w[0] && (w + t)[1..] == w[1..] + t;
      IntLStripSpaces(w[1..], t);
    } else {
      assert w + t == t;
    }
  }

  /** White space `int()` skips, put after a text, is all `IntRStrip` removes more. */
  lemma {:induction false} IntRStripSpaces(t: string, w: string)
    requires forall i :: 0 <= i < |w| ==> IntSpace(w[i])
    ensures IntRStrip(t + w) == IntRStrip(t)
  {
    if w != [] {
      assert (t + w)[|t + w| - 1] == w[|w| - 1] && (t + w)[..|t + w| - 1] == t + w[..|w| - 1];
      IntRStripSpaces(t, w[..|w| - 1]);
    } else {
      assert t + w == t;
    }
  }

  /**
    A digit followed by one of the separators U+001C..U+001F is not a number
    for `int()`, though `strip()` would have removed the separator; followed
    by a newline it is.
   */
  lemma SeparatorNotSkipped(d: char, c: char)
    requires IsDigit(d) && '\U{1C}' <= c <= '\U{1F}'
    ensures ParseInt([d, c]).None?
    ensures Strip([d, c]) == [d]
    ensures ParseInt([d, '\n']) == CharInt(d)
  {
    assert !IntSpace(d) && !IntSpace(c);
    IntStripClean([d, c]);
    assert [d, c][1..] == [c];
    assert RStrip([d, c]) == RStrip([d]);
    assert [d, '\n'][..1] == [d];
    assert IntStrip([d, '\n']) == [d] by {
      assert IntLStrip([d, '\n']) == [d, '\n'];
      assert IntRStrip([d, '\n']) == IntRStrip([d]);
    }
    ParseIntDigits([d]);
    ParseOfStripped([d], [d]);
    assert [d][..0] == [];
  }

  /** `int()` of text already stripped: an optional sign, then a digit group. */
  function ParseSigned(t: string): Option<int> {
    if |t| > 0 && t[0] == '-' then
      match ParseUnsigned(t[1..])
      case Some(v) => Some(-(v as int))
      case None => None
    else if |t| > 0 && t[0] == '+' then
      match ParseUnsigned(t[1..])
      case Some(v) => Some(v as int)
      case None => None
    else
      match ParseUnsigned(t)
      case Some(v) => Some(v as int)
      case None => None
  }

  function ParseUnsigned(u: string): Option<nat> {
    if IsDigitGroup(u) && CountDigits(u) <= MaxStrDigits then Some(DigitsValue(u)) else None
  }

  lemma {:induction false} CountAllDigits(u: string)
    requires forall i :: 0 <= i < |u| ==> IsDigit(u[i])
    ensures CountDigits(u) == |u|
  {
    if u != [] {
      CountAllDigits(u[..|u| - 1]);
    }
  }

  /** `int()` of a non-empty run of decimal digits within the limit is their decimal value. */
  lemma ParseIntDigits(u: string)
    requires 1 <= |u| <= MaxStrDigits
    requires forall i :: 0 <= i < |u| ==> IsDigit(u[i])
    ensures ParseInt(u) == Some(DigitsValue(u) as int)
  {
    assert ParseInt(u) == ParseSigned(u) by {
      DigitsClean(u);
      ParseOfStripped(u, u);
    }
    SignedDigits(u);
  }

  lemma DigitsClean(u: string)
    requires 1 <= |u|
    requires forall i :: 0 <= i < |u| ==> IsDigit(u[i])
    ensures IntStrip(u) == u
  {
    assert IsDigit(u[0]) && IsDigit(u[|u| - 1]);
    IntStripClean(u);
  }

  lemma SignedDigits(u: string)
    requires 1 <= |u| <= MaxStrDigits
    requires forall i :: 0 <= i < |u| ==> IsDigit(u[i])
    ensures ParseSigned(u) == Some(DigitsValue(u) as int)
  {
    CountAllDigits(u);
    assert u[0] != '+' && u[0] != '-';
    assert IsDigitGroup(u);
  }

  /** `int(c)` for a single character `c`, as `ParseIntChar` shows. */
  function CharInt(c: char): Option<int> {
    if IsDigit(c) then Some(DigitValue(c) as int) else None
  }

  /** `int(c)` of one character succeeds exactly on a decimal digit, with its value. */
  lemma ParseIntChar(c: char)
    ensures ParseInt([c]) == CharInt(c)
  {
    if IsDigit(c) {
      ParseIntDigits([c]);
      assert [c][..0] == [];
    } else if IntSpace(c) {
      assert IntLStrip([c]) == IntLStrip([c][1..]);
      assert [c][1..] == [];
      assert IntStrip([c]) == [];
    } else {
      IntStripClean([c]);
      if c == '+' || c == '-' {
        assert [c][1..] == [];
      }
    }
  }

  /** Zero-padding a string `int()` accepts does not change its value. */
  lemma ZFillKeepsValue(s: string)
    requires ParseInt(s).Some?
    ensures ParseInt(ZFill(s, 2)) == ParseInt(s)
    ensures ZFill(ZFill(s, 2), 2) == ZFill(s, 2)
  {
    if |s| < 2 {
      if s == [] {
        assert false;
      }
      var c := s[0];
      assert s == [c];
      ParseIntChar(c);
      PadDigit(c);
    }
  }

  /** A single digit padded to two is `0` and the digit, which reads as the digit. */
  lemma PadDigit(c: char)
    requires IsDigit(c)
    ensures ZFill([c], 2) == ['0', c]
    ensures ParseInt(['0', c]) == CharInt(c)
  {
    var z := ['0', c];
    ParseIntDigits(z);
    assert z[..1] == ['0'];
    assert ['0'][..0] == [];
  }

  /** `str(n)` for a non-negative integer. */
  function DecimalString(n: nat): (s: string)
    ensures |s| >= 1
    ensures forall i :: 0 <= i < |s| ==> IsDigit(s[i])
  {
    if n < 10 then [DigitChar(n)] else DecimalString(n / 10) + [DigitChar(n % 10)]
  }

  /** `str(n)` has at most `1 + n / 10` digits, so small numbers stay far below the digit limit. */
  lemma {:induction false} DecimalStringLength(n: nat)
    ensures |DecimalString(n)| <= 1 + n / 10
  {
    if n >= 10 {
      DecimalStringLength(n / 10);
    }
  }

  /** `sum(int(d) for d in s)`; `None` where one of the `int` calls raises. */
  function SumOfCharInts(s: string): Option<int> {
    if s == [] then Some(0)
    else
      var a := CharInt(s[0]);
      var b := SumOfCharInts(s[1..]);
      if a.Some? && b.Some? then Some(a.value + b.value) else None
  }

  /** The sum of the decimal digits of `n`. */
  function DigitSum(n: nat): nat {
    if n < 10 then n else DigitSum(n / 10) + n % 10
  }

  lemma {:induction false} SumOfCharIntsAppend(a: string, b: string)
    requires SumOfCharInts(a).Some? && SumOfCharInts(b).Some?
    ensures SumOfCharInts(a + b) == Some(SumOfCharInts(a).value + SumOfCharInts(b).value)
  {
    if a != [] {
      assert (a + b)[0] == a[0] && (a + b)[1..] == a[1..] + b;
      SumOfCharIntsAppend(a[1..], b);
    } else {
      assert a + b == b;
    }
  }

  /** Summing the characters of `str(n)` one by one gives the digit sum of `n`. */
  lemma {:induction false} SumOfDecimalString(n: nat)
    ensures SumOfCharInts(DecimalString(n)) == Some(DigitSum(n))
  {
    var d := DigitChar(n % 10);
    assert SumOfCharInts([d]) == Some(n % 10) by {
      assert [d][1..] == [];
    }
    if n >= 10 {
      SumOfDecimalString(n / 10);
      SumOfCharIntsAppend(DecimalString(n / 10), [d]);
    }
  }

  lemma {:induction false} DecimalStringValue(n: nat)
    ensures CountDigits(DecimalString(n)) == |DecimalString(n)|
    ensures DigitsValue(DecimalString(n)) == n
  {
    var s := DecimalString(n);
    if n >= 10 {
      DecimalStringValue(n / 10);
      assert s[..|s| - 1] == DecimalString(n / 10);
    } else {
      assert s[..0] == [];
    }
  }

  /** `int(str(n)) == n` for every `n` whose decimal form is within the digit limit. */
  lemma DecimalStringRoundTrip(n: nat)
    requires |DecimalString(n)| <= MaxStrDigits
    ensures ParseInt(DecimalString(n)) == Some(n)
  {
    DecimalStringValue(n);
    ParseIntDigits(DecimalString(n));
  }
}
