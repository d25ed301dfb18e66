/** Text operations of JavaScript and Python that the dashboard's parsers and
    filters are built from, each written out with the semantics of the
    language it comes from: `split` on a character, `split(/\s+/)`,
    Python's argument-less `split()`, `trim`/`strip`, `includes`,
    `startsWith`/`endsWith`, `replace` of the first occurrence, `toLowerCase`,
    `join`, `parseInt`, Python's `int(...)` and decimal rendering of integers.
    Only ASCII whitespace and ASCII case mapping are modelled. */
module Text {
  import opened Wrappers

  // ---------------------------------------------------------------------
  // Characters

  /** ASCII whitespace, as `\s` in a JavaScript pattern and Python's
      `str.split()`/`str.strip()` see it. */
  predicate IsSpace(c: char) {
    c == ' ' || c == '\t' || c == '\n' || c == '\r' || c == '\U{000B}' || c == '\U{000C}'
  }

  predicate IsDigit(c: char) {
    '0' <= c <= '9'
  }

  predicate IsLowerLetter(c: char) {
    'a' <= c <= 'z'
  }

  predicate IsUpperLetter(c: char) {
    'A' <= c <= 'Z'
  }

  function LowerChar(c: char): char {
    if IsUpperLetter(c) then (c as int + 32) as char else c
  }

  function UpperChar(c: char): char {
    if IsLowerLetter(c) then (c as int - 32) as char else c
  }

  /** `s.toLowerCase()` restricted to ASCII letters. */
  function ToLower(s: string): (r: string)
    ensures |r| == |s|
    ensures forall i :: 0 <= i < |s| ==> r[i] == LowerChar(s[i])
  {
    seq(|s|, i requires 0 <= i < |s| => LowerChar(s[i]))
  }

  /** `s.toUpperCase()` restricted to ASCII letters. */
  function ToUpper(s: string): (r: string)
    ensures |r| == |s|
    ensures forall i :: 0 <= i < |s| ==> r[i] == UpperChar(s[i])
  {
    seq(|s|, i requires 0 <= i < |s| => UpperChar(s[i]))
  }

  lemma ToLowerIdempotent(s: string)
    ensures ToLower(ToLower(s)) == ToLower(s)
  {
    assert forall i :: 0 <= i < |s| ==> LowerChar(LowerChar(s[i])) == LowerChar(s[i]);
  }

  // ---------------------------------------------------------------------
  // Prefixes, suffixes and substrings

  predicate StartsWith(s: string, prefix: string) {
    |prefix| <= |s| && s[..|prefix|] == prefix
  }

  predicate EndsWith(s: string, suffix: string) {
    |suffix| <= |s| && s[|s| - |suffix|..] == suffix
  }

  /** `s.includes(sub)`: `sub` occurs somewhere in `s` (the empty string
      occurs in every string). */
  predicate Contains(s: string, sub: string)
    decreases |s|
  {
    StartsWith(s, sub) || (|s| > 0 && Contains(s[1..], sub))
  }

  /** `sub` occurs in `s` at position `i`. */
  predicate OccursAt(s: string, sub: string, i: int) {
    0 <= i <= |s| - |sub| && s[i..i + |sub|] == sub
  }

  /** `Contains` holds exactly when `sub` occurs at some position of `s`. */
  lemma {:induction false} ContainsAt(s: string, sub: string)
    ensures Contains(s, sub) <==> exists i :: OccursAt(s, sub, i)
    decreases |s|
  {
    if StartsWith(s, sub) {
      assert OccursAt(s, sub, 0);
    } else if |s| > 0 {
      ContainsAt(s[1..], sub);
      if Contains(s[1..], sub) {
        var i :| OccursAt(s[1..], sub, i);
        assert OccursAt(s, sub, i + 1);
      }
      if exists i :: OccursAt(s, sub, i) {
        var i :| OccursAt(s, sub, i);
        assert i > 0;
        assert OccursAt(s[1..], sub, i - 1);
      }
    }
  }

  /** `s.indexOf(pattern)`: the first position where `pattern` occurs. */
  function IndexOf(s: string, pattern: string): (r: Option<nat>)
    ensures r.Some? ==> r.value + |pattern| <= |s| && s[r.value..r.value + |pattern|] == pattern
    ensures r.Some? ==> forall j :: 0 <= j < r.value ==> !StartsWith(s[j..], pattern)
    ensures r.None? <==> !Contains(s, pattern)
    decreases |s|
  {
    if StartsWith(s, pattern) then Some(0)
    else if |s| == 0 then None
    else
      match IndexOf(s[1..], pattern)
      case None => None
      case Some(i) =>
        IndexOfShift(s, pattern, i);
        Some(i + 1)
  }

  /** A first occurrence at `i` in `s[1..]`, with none at 0, is a first
      occurrence at `i + 1` in `s`. */
  lemma IndexOfShift(s: string, pattern: string, i: nat)
    requires |s| > 0 && !StartsWith(s, pattern)
    requires i + |pattern| <= |s[1..]| && s[1..][i..i + |pattern|] == pattern
    requires forall j :: 0 <= j < i ==> !StartsWith(s[1..][j..], pattern)
    ensures s[i + 1..i + 1 + |pattern|] == pattern
    ensures forall j :: 0 <= j < i + 1 ==> !StartsWith(s[j..], pattern)
  {
    assert s[i + 1..i + 1 + |pattern|] == s[1..][i..i + |pattern|];
    forall j | 1 <= j < i + 1
      ensures !StartsWith(s[j..], pattern)
    {
      assert s[j..] == s[1..][j - 1..];
    }
  }

  /** `s.replace(pattern, replacement)` with a string pattern: only the
      first occurrence is replaced. */
  function ReplaceFirst(s: string, pattern: string, replacement: string): (r: string)
    ensures !Contains(s, pattern) ==> r == s
  {
    match IndexOf(s, pattern)
    case None => s
    case Some(i) => s[..i] + replacement + s[i + |pattern|..]
  }

  /** `s.replace(/c/g, '')`: every occurrence of `c` removed. */
  function RemoveAll(s: string, c: char): (r: string)
    ensures c !in r
    ensures forall x :: x in r <==> x in s && x != c
  {
    if |s| == 0 then ""
    else (if s[0] == c then "" else [s[0]]) + RemoveAll(s[1..], c)
  }

  // ---------------------------------------------------------------------
  // Trimming

  /** Leading whitespace removed (`trimStart`, Python `lstrip()`). */
  function TrimStart(s: string): (r: string)
    ensures |r| <= |s| && r == s[|s| - |r|..]
    ensures r == "" || !IsSpace(r[0])
    ensures |s| > 0 && IsSpace(s[0]) ==> |r| < |s|
  {
    if |s| > 0 && IsSpace(s[0]) then TrimStart(s[1..]) else s
  }

  /** Trailing whitespace removed (`trimEnd`, Python `rstrip()`). */
  function TrimEnd(s: string): (r: string)
    ensures |r| <= |s| && r == s[..|r|]
    ensures r == "" || !IsSpace(r[|r| - 1])
  {
    if |s| > 0 && IsSpace(s[|s| - 1]) then TrimEnd(s[..|s| - 1]) else s
  }

  /** `s.trim()` in JavaScript, `s.strip()` in Python. */
  function Trim(s: string): (r: string)
    ensures r == "" || (!IsSpace(r[0]) && !IsSpace(r[|r| - 1]))
  {
    TrimEnd(TrimStart(s))
  }

  /** Python's `s.strip(c)`: every leading and trailing `c` removed. */
  function StripChar(s: string, c: char): (r: string)
    ensures r == "" || (r[0] != c && r[|r| - 1] != c)
    ensures |r| <= |s|
    decreases |s|
  {
    if |s| > 0 && s[0] == c then StripChar(s[1..], c)
    else if |s| > 0 && s[|s| - 1] == c then StripChar(s[..|s| - 1], c)
    else s
  }

  // ---------------------------------------------------------------------
  // Splitting and joining

  /** `s.split(sep)` for a one-character separator: the pieces between
      successive separators, always at least one piece. */
  function SplitOn(s: string, sep: char): (r: seq<string>)
    ensures |r| >= 1
  {
    if |s| == 0 then [""]
    else
      var rest := SplitOn(s[1..], sep);
      if s[0] == sep then [""] + rest
      else [[s[0]] + rest[0]] + rest[1..]
  }

  /** `parts.join(sep)`. */
  function Join(parts: seq<string>, sep: string): string {
    if |parts| == 0 then ""
    else if |parts| == 1 then parts[0]
    else parts[0] + sep + Join(parts[1..], sep)
  }

  /** Splitting on a character and joining with that character gives the
      original text back. */
  lemma {:induction false} JoinSplitOn(s: string, sep: char)
    ensures Join(SplitOn(s, sep), [sep]) == s
  {
    if |s| > 0 {
      var rest := SplitOn(s[1..], sep);
      JoinSplitOn(s[1..], sep);
      if s[0] == sep {
        assert SplitOn(s, sep) == [""] + rest;
        assert ([""] + rest)[1..] == rest;
      } else {
        var parts := SplitOn(s, sep);
        assert parts == [[s[0]] + rest[0]] + rest[1..];
        if |rest| > 1 {
          assert parts[1..] == rest[1..];
          assert Join(rest, [sep]) == rest[0] + [sep] + Join(rest[1..], [sep]);
        }
      }
    }
  }

  /** No piece of a split contains the separator. */
  lemma {:induction false} SplitOnPiecesFree(s: string, sep: char)
    ensures forall k :: 0 <= k < |SplitOn(s, sep)| ==> sep !in SplitOn(s, sep)[k]
  {
    if |s| > 0 {
      SplitOnPiecesFree(s[1..], sep);
    }
  }

  /** Text up to the first separator is the first piece, and the pieces of
      what follows the separator are the remaining ones. */
  lemma {:induction false} SplitOnAfterFirst(a: string, sep: char, b: string)
    requires sep !in a
    ensures SplitOn(a + [sep] + b, sep) == [a] + SplitOn(b, sep)
  {
    if |a| == 0 {
      assert a + [sep] + b == [sep] + b;
      assert ([sep] + b)[1..] == b;
    } else {
      SplitOnAfterFirst(a[1..], sep, b);
      assert (a + [sep] + b)[1..] == a[1..] + [sep] + b;
      assert [a[0]] + a[1..] == a;
    }
  }

  /** Text without the separator is a single piece. */
  lemma {:induction false} SplitOnFree(a: string, sep: char)
    requires sep !in a
    ensures SplitOn(a, sep) == [a]
  {
    if |a| > 0 {
      SplitOnFree(a[1..], sep);
      assert [a[0]] + a[1..] == a;
    }
  }

  /** One unfolding of `SplitOn` on a first character. */
  lemma SplitOnCons(c: char, t: string, sep: char)
    ensures SplitOn([c] + t, sep) ==
      if c == sep then [""] + SplitOn(t, sep) else [[c] + SplitOn(t, sep)[0]] + SplitOn(t, sep)[1..]
  {
    assert ([c] + t)[1..] == t;
  }

  /** Prepending a character to the first of two piece lists. */
  lemma ConsPieces(c: char, sep: char, left: seq<string>, right: seq<string>)
    requires |left| >= 1
    ensures c == sep ==> [""] + (left + right) == ([""] + left) + right
    ensures c != sep ==>
      [[c] + (left + right)[0]] + (left + right)[1..] == ([[c] + left[0]] + left[1..]) + right
  {
    if c != sep {
      assert (left + right)[1..] == left[1..] + right;
    }
  }

  /** `SplitOnConcat` for a first character, given it for the rest. */
  lemma SplitOnConcatCons(c: char, a: string, sep: char, b: string)
    requires SplitOn(a + [sep] + b, sep) == SplitOn(a, sep) + SplitOn(b, sep)
    ensures SplitOn([c] + (a + [sep] + b), sep) == SplitOn([c] + a, sep) + SplitOn(b, sep)
  {
    SplitOnCons(c, a + [sep] + b, sep);
    SplitOnCons(c, a, sep);
    ConsPieces(c, sep, SplitOn(a, sep), SplitOn(b, sep));
  }

  /** Splitting text joined at a separator gives the pieces of each side. */
  lemma {:induction false} SplitOnConcat(a: string, sep: char, b: string)
    ensures SplitOn(a + [sep] + b, sep) == SplitOn(a, sep) + SplitOn(b, sep)
  {
    if |a| == 0 {
      assert a + [sep] + b == [sep] + b;
      SplitOnCons(sep, b, sep);
    } else {
      SplitOnConcat(a[1..], sep, b);
      SplitOnConcatCons(a[0], a[1..], sep, b);
      assert [a[0]] + a[1..] == a;
      assert [a[0]] + (a[1..] + [sep] + b) == a + [sep] + b;
    }
  }

  /** Pieces free of the separator, joined with it, split back into
      themselves. */
  lemma {:induction false} SplitOnJoin(parts: seq<string>, sep: char)
    requires |parts| >= 1
    requires forall k :: 0 <= k < |parts| ==> sep !in parts[k]
    ensures SplitOn(Join(parts, [sep]), sep) == parts
  {
    SplitOnFree(parts[0], sep);
    if |parts| > 1 {
      SplitOnJoin(parts[1..], sep);
      SplitOnConcat(parts[0], sep, Join(parts[1..], [sep]));
      assert [parts[0]] + parts[1..] == parts;
    }
  }

  /** Text holding the separator splits into at least two pieces. */
  lemma {:induction false} SplitOnSeparated(s: string, sep: char)
    requires sep in s
    ensures |SplitOn(s, sep)| >= 2
  {
    if s[0] != sep {
      SplitOnSeparated(s[1..], sep);
    }
  }

  /** The longest prefix of `s` without whitespace. */
  function TakeWord(s: string): (w: string)
    ensures |w| <= |s| && w == s[..|w|]
    ensures forall i :: 0 <= i < |w| ==> !IsSpace(w[i])
    ensures |w| < |s| ==> IsSpace(s[|w|])
  {
    if |s| == 0 || IsSpace(s[0]) then "" else [s[0]] + TakeWord(s[1..])
  }

  /** `s.split(/\s+/)` in JavaScript: the pieces between maximal runs of
      whitespace. Leading or trailing whitespace gives an empty first or
      last piece, and the empty string gives one empty piece. */
  function SplitWs(s: string): (r: seq<string>)
    ensures |r| >= 1
    ensures r[0] == TakeWord(s)
    decreases |s|
  {
    var w := TakeWord(s);
    if |w| == |s| then [w]
    else [w] + SplitWs(TrimStart(s[|w|..]))
  }

  /** `s.trim().split(/\s+/)` in JavaScript. */
  function Fields(s: string): (r: seq<string>)
    ensures |r| >= 1
  {
    SplitWs(Trim(s))
  }

  /** Python's argument-less `s.split()`: the maximal runs of
      non-whitespace, never an empty piece. */
  function Words(s: string): (r: seq<string>)
    ensures forall k :: 0 <= k < |r| ==> r[k] != ""
    decreases |s|
  {
    var t := TrimStart(s);
    if t == "" then []
    else
      var w := TakeWord(t);
      var rest := Words(t[|w|..]);
      WordsCons(t, rest);
      [w] + rest
  }

  /** The first word of a text that starts with a non-space is not empty,
      and neither is any word after it. */
  lemma WordsCons(t: string, rest: seq<string>)
    requires t != "" && !IsSpace(t[0])
    requires forall k :: 0 <= k < |rest| ==> rest[k] != ""
    ensures TakeWord(t) != ""
    ensures forall k :: 0 <= k < |rest| + 1 ==> ([TakeWord(t)] + rest)[k] != ""
  {
  }

  lemma {:induction false} TakeWordOfToken(s: string)
    requires forall i :: 0 <= i < |s| ==> !IsSpace(s[i])
    ensures TakeWord(s) == s
  {
    if |s| > 0 {
      TakeWordOfToken(s[1..]);
    }
  }

  /** A text with no whitespace at all is a single Python word. */
  lemma WordsOfToken(s: string)
    requires s != "" && forall i :: 0 <= i < |s| ==> !IsSpace(s[i])
    ensures Words(s) == [s]
  {
    var rest := s[|s|..];
    assert rest == "";
    assert TrimStart(rest) == rest;
    assert Words(rest) == [];
    assert TrimStart(s) == s;
    TakeWordOfToken(s);
    assert Words(s) == [s] + Words(rest);
  }

  // ---------------------------------------------------------------------
  // Integers as text

  function DigitValue(c: char): nat
    requires IsDigit(c)
  {
    c as int - '0' as int
  }

  function DigitChar(d: nat): char
    requires d < 10
  {
    ('0' as int + d) as char
  }

  predicate AllDigits(s: string) {
    forall i :: 0 <= i < |s| ==> IsDigit(s[i])
  }

  /** The value of a string of decimal digits (0 for the empty string). */
  function DigitsValue(s: string): nat
    requires AllDigits(s)
  {
    if |s| == 0 then 0 else DigitsValue(s[..|s| - 1]) * 10 + DigitValue(s[|s| - 1])
  }

  /** The longest prefix of decimal digits. */
  function DigitPrefix(s: string): (r: string)
    ensures AllDigits(r) && |r| <= |s| && r == s[..|r|]
    ensures |r| < |s| ==> !IsDigit(s[|r|])
  {
    if |s| == 0 || !IsDigit(s[0]) then "" else [s[0]] + DigitPrefix(s[1..])
  }

  /** Decimal rendering of a natural number, as `n.toString()` gives it. */
  function NatToString(n: nat): (r: string)
    ensures |r| >= 1 && AllDigits(r)
  {
    if n < 10 then [DigitChar(n)] else NatToString(n / 10) + [DigitChar(n % 10)]
  }

  /** Decimal rendering of an integer, with a leading '-' when negative. */
  function IntToString(n: int): (r: string)
    ensures |r| >= 1
  {
    if n < 0 then "-" + NatToString(-n) else NatToString(n)
  }

  lemma {:induction false} NatToStringValue(n: nat)
    ensures DigitsValue(NatToString(n)) == n
  {
    if n >= 10 {
      NatToStringValue(n / 10);
      var s := NatToString(n);
      assert s[..|s| - 1] == NatToString(n / 10);
    }
  }

  lemma AllDigitsPrefix(s: string)
    requires AllDigits(s)
    ensures DigitPrefix(s) == s
  {
  }

  /** Split an optional leading sign off `t`: whether it was '-', and the rest. */
  function SignSplit(t: string): (bool, string) {
    if |t| > 0 && t[0] == '-' then (true, t[1..])
    else if |t| > 0 && t[0] == '+' then (false, t[1..])
    else (false, t)
  }

  function Signed(negative: bool, n: nat): int {
    if negative then -(n as int) else n
  }

  /** `parseInt(s, 10)`: leading whitespace and an optional sign are skipped,
      then the longest run of digits is read; anything after it is ignored,
      and no digit at all gives NaN (here `None`). */
  function ParseIntPrefix(s: string): Option<int> {
    var (negative, body) := SignSplit(TrimStart(s));
    var digits := DigitPrefix(body);
    if digits == "" then None else Some(Signed(negative, DigitsValue(digits)))
  }

  /** Python's `int(s)`: surrounding whitespace, an optional sign and at
      least one digit, nothing else (digit-group underscores are not
      modelled); anything else raises (here `None`). */
  function ParseIntStrict(s: string): Option<int> {
    var (negative, body) := SignSplit(Trim(s));
    if body != "" && AllDigits(body) then Some(Signed(negative, DigitsValue(body))) else None
  }

  lemma DigitsUntrimmed(s: string)
    requires |s| >= 1 && AllDigits(s)
    ensures TrimStart(s) == s && Trim(s) == s
  {
    assert IsDigit(s[0]) && IsDigit(s[|s| - 1]);
    assert !IsSpace(s[0]);
    assert !IsSpace(s[|s| - 1]);
  }

  /** Python's `int(float(s))` for a plain decimal numeral (optional sign,
      digits, optional fraction): the value truncated toward zero. Anything
      `float` rejects, and the infinities and NaN that `int` rejects, give
      `None`; exponent notation is not modelled and also gives `None`. */
  function ParseDecimalTruncated(s: string): Option<int> {
    var (negative, body) := SignSplit(Trim(s));
    var whole := DigitPrefix(body);
    var rest := body[|whole|..];
    if rest == "" then
      (if whole == "" then None else Some(Signed(negative, DigitsValue(whole))))
    else if rest[0] == '.' && AllDigits(rest[1..]) && (whole != "" || |rest| > 1) then
      Some(Signed(negative, DigitsValue(whole)))
    else None
  }

  function Pow10(n: nat): (r: nat)
    ensures r >= 1
  {
    if n == 0 then 1 else 10 * Pow10(n - 1)
  }

  /** `parseFloat(s)` for decimal text: leading whitespace and a sign are
      skipped, then digits with an optional fraction are read and the rest
      is ignored; no digit at all gives NaN (here `None`). Exponents and
      `Infinity` are not modelled. */
  function ParseFloatPrefix(s: string): (r: Option<real>)
    ensures ParseIntPrefix(s).Some? ==> r.Some?
  {
    var (negative, body) := SignSplit(TrimStart(s));
    match UnsignedDecimalPrefix(body)
    case None => None
    case Some(magnitude) => Some(if negative then -magnitude else magnitude)
  }

  /** The value of the longest prefix of `body` of the form digits, '.',
      digits, with at least one digit; `None` when there is none. */
  function UnsignedDecimalPrefix(body: string): (r: Option<real>)
    ensures DigitPrefix(body) != "" ==> r.Some?
  {
    var whole := DigitPrefix(body);
    var rest := body[|whole|..];
    var fraction := if rest != "" && rest[0] == '.' then DigitPrefix(rest[1..]) else "";
    if whole == "" && fraction == "" then None else Some(DecimalValue(whole, fraction))
  }

  /** The value of the numeral "whole.fraction". */
  function DecimalValue(whole: string, fraction: string): real
    requires AllDigits(whole) && AllDigits(fraction)
  {
    DigitsValue(whole) as real + DigitsValue(fraction) as real / Pow10(|fraction|) as real
  }

  /** The digit prefix of digits followed by a non-digit is those digits. */
  lemma {:induction false} DigitPrefixOf(d: string, s: string)
    requires AllDigits(d) && (s == "" || !IsDigit(s[0]))
    ensures DigitPrefix(d + s) == d
  {
    if |d| == 0 {
      assert d + s == s;
    } else {
      assert (d + s)[1..] == d[1..] + s;
      DigitPrefixOf(d[1..], s);
      assert [d[0]] + d[1..] == d;
    }
  }

  /** `parseFloat` of a plain decimal numeral "whole.fraction" is its
      value. */
  lemma ParseFloatOfDecimal(whole: string, fraction: string)
    requires |whole| >= 1 && AllDigits(whole) && AllDigits(fraction)
    ensures ParseFloatPrefix(whole + ['.'] + fraction) == Some(DecimalValue(whole, fraction))
  {
    var s := whole + ['.'] + fraction;
    assert s[0] == whole[0];
    ParseFloatUnsigned(s);
    UnsignedOfDecimal(whole, fraction, s);
  }

  /** Text that starts with a digit has no leading space or sign to skip. */
  lemma ParseFloatUnsigned(s: string)
    requires s != "" && IsDigit(s[0])
    ensures ParseFloatPrefix(s) == UnsignedDecimalPrefix(s)
  {
    assert TrimStart(s) == s;
    assert SignSplit(s) == (false, s);
  }

  lemma UnsignedOfDecimal(whole: string, fraction: string, s: string)
    requires whole != "" && AllDigits(whole) && AllDigits(fraction) && s == whole + ['.'] + fraction
    ensures UnsignedDecimalPrefix(s) == Some(DecimalValue(whole, fraction))
  {
    assert DigitPrefix(s) == whole by {
      assert s == whole + (['.'] + fraction);
      DigitPrefixOf(whole, ['.'] + fraction);
    }
    var rest := s[|whole|..];
    assert rest != "" && rest[0] == '.' && rest[1..] == fraction by {
      assert rest == ['.'] + fraction;
    }
    assert DigitPrefix(fraction) == fraction by {
      AllDigitsPrefix(fraction);
    }
  }

  /** The part of `s` before the first `c` and the part after it (Python's
      `s.split(c, 1)` when `c` occurs). */
  function SplitFirst(s: string, c: char): (r: (string, string))
    requires c in s
    ensures r.0 + [c] + r.1 == s
    ensures c !in r.0
  {
    if s[0] == c then ("", s[1..])
    else
      var (a, b) := SplitFirst(s[1..], c);
      ([s[0]] + a, b)
  }

  /** The first `c` of `a + [c] + b` is the one after `a` when `a` has
      none. */
  lemma {:induction false} SplitFirstAt(a: string, c: char, b: string)
    requires c !in a
    ensures SplitFirst(a + [c] + b, c) == (a, b)
  {
    if |a| > 0 {
      assert (a + [c] + b)[1..] == a[1..] + [c] + b;
      SplitFirstAt(a[1..], c, b);
      assert [a[0]] + a[1..] == a;
    } else {
      assert (a + [c] + b)[1..] == b;
    }
  }

  lemma {:induction false} TrimStartDropsSpaces(s: string)
    ensures forall i :: 0 <= i < |s| - |TrimStart(s)| ==> IsSpace(s[i])
  {
    if |s| > 0 && IsSpace(s[0]) {
      TrimStartDropsSpaces(s[1..]);
    }
  }

  lemma {:induction false} TrimEndDropsSpaces(s: string)
    ensures forall i :: |TrimEnd(s)| <= i < |s| ==> IsSpace(s[i])
  {
    if |s| > 0 && IsSpace(s[|s| - 1]) {
      TrimEndDropsSpaces(s[..|s| - 1]);
    }
  }

  /** Trimming removes whitespace only. */
  lemma TrimKeepsNonSpace(s: string, c: char)
    requires c in s && !IsSpace(c)
    ensures c in Trim(s)
  {
    var t := TrimStart(s);
    TrimStartDropsSpaces(s);
    var i :| 0 <= i < |s| && s[i] == c;
    assert t[i - (|s| - |t|)] == c;
    var u := TrimEnd(t);
    TrimEndDropsSpaces(t);
    assert u[i - (|s| - |t|)] == c;
  }

  /** The first Python word of a text that starts with a token followed by
      whitespace (or nothing) is that token. */
  lemma FirstWord(tok: string, rest: string)
    requires tok != "" && forall i :: 0 <= i < |tok| ==> !IsSpace(tok[i])
    requires rest == "" || IsSpace(rest[0])
    ensures |Words(tok + rest)| > 0 && Words(tok + rest)[0] == tok
  {
    var s := tok + rest;
    assert TrimStart(s) == s;
    TakeWordOfTokenThen(tok, rest);
  }

  lemma {:induction false} TakeWordOfTokenThen(tok: string, rest: string)
    requires forall i :: 0 <= i < |tok| ==> !IsSpace(tok[i])
    requires rest == "" || IsSpace(rest[0])
    ensures TakeWord(tok + rest) == tok
  {
    if |tok| > 0 {
      assert (tok + rest)[1..] == tok[1..] + rest;
      TakeWordOfTokenThen(tok[1..], rest);
    } else {
      assert tok + rest == rest;
    }
  }

  /** `parseInt` reads back what `toString` wrote, and so does Python's `int`. */
  lemma IntToStringRoundTrip(n: int)
    ensures ParseIntPrefix(IntToString(n)) == Some(n)
    ensures ParseIntStrict(IntToString(n)) == Some(n)
  {
    var m: nat := if n < 0 then -n else n;
    var digits := NatToString(m);
    NatToStringValue(m);
    AllDigitsPrefix(digits);
    var t := IntToString(n);
    if n < 0 {
      assert t == "-" + digits;
      assert t[1..] == digits;
      assert !IsSpace(t[0]);
      assert IsDigit(t[|t| - 1]);
      assert !IsSpace(t[|t| - 1]);
      assert TrimStart(t) == t;
      assert Trim(t) == t;
      assert SignSplit(t) == (true, digits);
    } else {
      DigitsUntrimmed(digits);
      assert SignSplit(t) == (false, digits);
    }
  }
}
