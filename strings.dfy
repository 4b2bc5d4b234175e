/**
 * The pieces of Rust's `str` API the solvers lean on: `split(char)`,
 * `split_ascii_whitespace`, `trim`, `char::to_digit(10)` and `FromStr` for
 * the fixed-width integer types. Strings are sequences of chars.
 */
module Strings {
  import opened Wrappers

  const U16_MAX: nat := 0xFFFF
  const U32_MAX: nat := 0xFFFF_FFFF
  const U64_MAX: nat := 0xFFFF_FFFF_FFFF_FFFF
  const I32_MIN: int := -0x8000_0000
  const I32_MAX: int := 0x7FFF_FFFF
  const I64_MIN: int := -0x8000_0000_0000_0000
  const I64_MAX: int := 0x7FFF_FFFF_FFFF_FFFF

  /** `char::is_whitespace`: the Unicode White_Space property. */
  predicate IsWhitespace(c: char) {
    || ('\t' <= c <= '\r')
    || c == ' '
    || c == '\U{85}'
    || c == '\U{A0}'
    || c == '\U{1680}'
    || ('\U{2000}' <= c <= '\U{200A}')
    || c == '\U{2028}'
    || c == '\U{2029}'
    || c == '\U{202F}'
    || c == '\U{205F}'
    || c == '\U{3000}'
  }

  /** `u8::is_ascii_whitespace`: space, tab, line feed, form feed, carriage return (not vertical tab). */
  predicate IsAsciiWhitespace(c: char) {
    c == ' ' || c == '\t' || c == '\n' || c == '\U{C}' || c == '\r'
  }

  /** Number of whitespace chars at the front of `s`. */
  function LeadingWhitespace(s: string): (n: nat)
    ensures n <= |s|
    ensures forall i :: 0 <= i < n ==> IsWhitespace(s[i])
    ensures n == |s| || !IsWhitespace(s[n])
  {
    if |s| > 0 && IsWhitespace(s[0]) then 1 + LeadingWhitespace(s[1..]) else 0
  }

  /** Number of whitespace chars at the back of `s`. */
  function TrailingWhitespace(s: string): (n: nat)
    ensures n <= |s|
    ensures forall i :: |s| - n <= i < |s| ==> IsWhitespace(s[i])
    ensures n == |s| || !IsWhitespace(s[|s| - n - 1])
  {
    if |s| > 0 && IsWhitespace(s[|s| - 1]) then 1 + TrailingWhitespace(s[..|s| - 1]) else 0
  }

  /** `str::trim`: `s` without its leading and trailing whitespace. */
  function Trim(s: string): (r: string)
    ensures LeadingWhitespace(s) + |r| <= |s|
    ensures r == [] || (!IsWhitespace(r[0]) && !IsWhitespace(r[|r| - 1]))
    ensures r == s[LeadingWhitespace(s)..LeadingWhitespace(s) + |r|]
    ensures forall i :: 0 <= i < |s| && !IsWhitespace(s[i]) ==>
              LeadingWhitespace(s) <= i < LeadingWhitespace(s) + |r|
  {
    var t := s[LeadingWhitespace(s)..];
    t[..|t| - TrailingWhitespace(t)]
  }

  /** Inverse of `Split`: the pieces glued back with `sep` between neighbours. */
  function Join(pieces: seq<string>, sep: char): string
    requires |pieces| >= 1
  {
    if |pieces| == 1 then pieces[0] else pieces[0] + [sep] + Join(pieces[1..], sep)
  }

  /** `str::split(sep)`: the maximal `sep`-free pieces, always at least one. */
  function Split(s: string, sep: char): (r: seq<string>)
    ensures |r| >= 1
    ensures forall i :: 0 <= i < |r| ==> sep !in r[i]
    ensures Join(r, sep) == s
  {
    if s == [] then [[]]
    else
      var rest := Split(s[1..], sep);
      if s[0] == sep then
        assert ([[]] + rest)[1..] == rest;
        [[]] + rest
      else
        var r := [[s[0]] + rest[0]] + rest[1..];
        assert r[1..] == rest[1..];
        assert s == [s[0]] + s[1..];
        r
  }

  lemma {:induction false} SplitPrefix(w: string, t: string, sep: char)
    requires sep !in w
    ensures Split(w + t, sep) == [w + Split(t, sep)[0]] + Split(t, sep)[1..]
  {
    if w != [] {
      assert (w + t)[1..] == w[1..] + t;
      SplitPrefix(w[1..], t, sep);
      assert [w[0]] + (w[1..] + Split(t, sep)[0]) == w + Split(t, sep)[0];
    } else {
      assert w + t == t;
      assert w + Split(t, sep)[0] == Split(t, sep)[0];
      assert Split(t, sep) == [Split(t, sep)[0]] + Split(t, sep)[1..];
    }
  }

  /** Splitting a join of `sep`-free pieces gives the pieces back. */
  lemma {:induction false} SplitJoin(pieces: seq<string>, sep: char)
    requires |pieces| >= 1
    requires forall i :: 0 <= i < |pieces| ==> sep !in pieces[i]
    ensures Split(Join(pieces, sep), sep) == pieces
  {
    if |pieces| == 1 {
      SplitPrefix(pieces[0], [], sep);
      assert Split([], sep) == [[]];
      assert pieces[0] + [] == pieces[0];
      assert pieces == [pieces[0]];
    } else {
      var rest := Join(pieces[1..], sep);
      SplitJoin(pieces[1..], sep);
      assert pieces[0] + [sep] + rest == pieces[0] + ([sep] + rest);
      SplitPrefix(pieces[0], [sep] + rest, sep);
      assert ([sep] + rest)[1..] == rest;
      assert Split([sep] + rest, sep) == [[]] + Split(rest, sep);
      assert pieces[0] + [] == pieces[0];
      assert pieces == [pieces[0]] + pieces[1..];
    }
  }

  /** `str::split(char::is_ascii_whitespace)`, keeping the empty pieces. */
  function AsciiFields(s: string): (r: seq<string>)
    ensures |r| >= 1
  {
    if s == [] then [[]]
    else
      var rest := AsciiFields(s[1..]);
      if IsAsciiWhitespace(s[0]) then [[]] + rest
      else [[s[0]] + rest[0]] + rest[1..]
  }

  /** No field holds a whitespace char. */
  lemma {:induction false} AsciiFieldsNoWhitespace(s: string)
    ensures forall i, j :: 0 <= i < |AsciiFields(s)| && 0 <= j < |AsciiFields(s)[i]| ==> !IsAsciiWhitespace(AsciiFields(s)[i][j])
  {
    if s != [] {
      AsciiFieldsNoWhitespace(s[1..]);
    }
  }

  /** An ASCII whitespace char splits the fields of `s + [c] + t` into those of `s` and of `t`. */
  lemma {:induction false} AsciiFieldsAt(s: string, c: char, t: string)
    requires IsAsciiWhitespace(c)
    ensures AsciiFields(s + [c] + t) == AsciiFields(s) + AsciiFields(t)
  {
    if s != [] {
      assert (s + [c] + t)[1..] == s[1..] + [c] + t;
      AsciiFieldsAt(s[1..], c, t);
    } else {
      assert s + [c] + t == [c] + t;
      assert ([c] + t)[1..] == t;
    }
  }

  /** A word without whitespace is a single field. */
  lemma {:induction false} AsciiFieldsWord(w: string)
    requires forall i :: 0 <= i < |w| ==> !IsAsciiWhitespace(w[i])
    ensures AsciiFields(w) == [w]
  {
    if w != [] {
      AsciiFieldsWord(w[1..]);
      assert w == [w[0]] + w[1..];
    }
  }

  /** The pieces that are not empty, in order (`.filter(|x| !x.is_empty())`). */
  function NonEmpty(pieces: seq<string>): (r: seq<string>)
    ensures |r| <= |pieces|
  {
    if pieces == [] then []
    else if pieces[0] == [] then NonEmpty(pieces[1..])
    else [pieces[0]] + NonEmpty(pieces[1..])
  }

  /** `NonEmpty` keeps exactly the non-empty pieces. */
  lemma {:induction false} NonEmptyMembers(pieces: seq<string>)
    ensures forall p :: p in NonEmpty(pieces) <==> p in pieces && p != []
  {
    if pieces != [] {
      NonEmptyMembers(pieces[1..]);
      assert pieces == [pieces[0]] + pieces[1..];
    }
  }

  lemma {:induction false} NonEmptyAppend(a: seq<string>, b: seq<string>)
    ensures NonEmpty(a + b) == NonEmpty(a) + NonEmpty(b)
  {
    if a != [] {
      assert (a + b)[1..] == a[1..] + b;
      NonEmptyAppend(a[1..], b);
    } else {
      assert a + b == b;
    }
  }

  /** `str::split_ascii_whitespace`: the non-empty runs of non-whitespace chars. */
  function Tokens(s: string): seq<string> {
    NonEmpty(AsciiFields(s))
  }

  /** Every token is a non-empty word without whitespace. */
  lemma TokensAreWords(s: string)
    ensures forall i :: 0 <= i < |Tokens(s)| ==> Tokens(s)[i] != []
    ensures forall i, j :: 0 <= i < |Tokens(s)| && 0 <= j < |Tokens(s)[i]| ==> !IsAsciiWhitespace(Tokens(s)[i][j])
  {
    var fields := AsciiFields(s);
    AsciiFieldsNoWhitespace(s);
    NonEmptyMembers(fields);
    forall i | 0 <= i < |Tokens(s)|
      ensures Tokens(s)[i] != [] && forall j :: 0 <= j < |Tokens(s)[i]| ==> !IsAsciiWhitespace(Tokens(s)[i][j])
    {
      assert Tokens(s)[i] in NonEmpty(fields);
      var k :| 0 <= k < |fields| && fields[k] == Tokens(s)[i];
    }
  }

  /** A non-empty run of chars that are not ASCII whitespace. */
  predicate IsWord(w: string) {
    w != [] && forall i :: 0 <= i < |w| ==> !IsAsciiWhitespace(w[i])
  }

  /** Words joined by single spaces split back into the words. */
  lemma {:induction false} TokensJoin(words: seq<string>)
    requires |words| >= 1 && forall i :: 0 <= i < |words| ==> IsWord(words[i])
    ensures Tokens(Join(words, ' ')) == words
  {
    AsciiFieldsWord(words[0]);
    if |words| == 1 {
      assert NonEmpty([words[0]]) == [words[0]] + NonEmpty([]);
    } else {
      var rest := Join(words[1..], ' ');
      AsciiFieldsAt(words[0], ' ', rest);
      NonEmptyAppend([words[0]], AsciiFields(rest));
      assert NonEmpty([words[0]]) == [words[0]] + NonEmpty([]);
      TokensJoin(words[1..]);
      assert words == [words[0]] + words[1..];
    }
  }

  predicate IsDigit(c: char) {
    '0' <= c <= '9'
  }

  /** `char::to_digit(10)` on a decimal digit. */
  function DigitValue(c: char): (d: nat)
    requires IsDigit(c)
    ensures d < 10
  {
    (c as int) - ('0' as int)
  }

  function DigitChar(d: nat): (c: char)
    requires d < 10
    ensures IsDigit(c) && DigitValue(c) == d
  {
    ('0' as int + d) as char
  }

  predicate AllDigits(s: string) {
    forall i :: 0 <= i < |s| ==> IsDigit(s[i])
  }

  /** The number a string of decimal digits spells, most significant digit first. */
  function DigitsValue(s: string): nat
    requires AllDigits(s)
  {
    if s == [] then 0 else 10 * DigitsValue(s[..|s| - 1]) + DigitValue(s[|s| - 1])
  }

  /** Decimal rendering of `n`, the inverse of `DigitsValue`. */
  function Show(n: nat): (s: string)
    ensures |s| >= 1 && AllDigits(s)
  {
    if n < 10 then [DigitChar(n)] else Show(n / 10) + [DigitChar(n % 10)]
  }

  lemma {:induction false} ShowValue(n: nat)
    ensures DigitsValue(Show(n)) == n
  {
    if n >= 10 {
      var s := Show(n);
      assert s[..|s| - 1] == Show(n / 10);
      ShowValue(n / 10);
    }
  }

  /**
   * `FromStr` for an unsigned integer type whose largest value is `max`:
   * an optional `+`, then at least one ASCII digit; a value above `max` is
   * an overflow error. Leading zeros are allowed.
   */
  function ParseUnsigned(s: string, max: nat): (r: Option<nat>)
    ensures r.Some? ==> r.value <= max
    ensures r.Some? ==> |s| >= 1 && (IsDigit(s[0]) || s[0] == '+')
  {
    var digits := if |s| > 0 && s[0] == '+' then s[1..] else s;
    if digits == [] || !AllDigits(digits) then None
    else if DigitsValue(digits) > max then None
    else Some(DigitsValue(digits))
  }

  /** `FromStr` for a signed integer type with range `min..=max`: as unsigned, or `-` then digits. */
  function ParseSigned(s: string, min: int, max: nat): (r: Option<int>)
    requires min <= 0
    ensures r.Some? ==> min <= r.value <= max
  {
    if |s| > 0 && s[0] == '-' then
      var digits := s[1..];
      if digits == [] || !AllDigits(digits) then None
      else
        var v: int := DigitsValue(digits);
        if -v < min then None else Some(-v)
    else
      match ParseUnsigned(s, max)
      case None => None
      case Some(v) => Some(v)
  }

  /** Parsing the rendering of an in-range number gives the number back. */
  lemma ParseShow(n: nat, max: nat)
    requires n <= max
    ensures ParseUnsigned(Show(n), max) == Some(n)
  {
    ShowValue(n);
  }

  /** Decimal rendering of a signed number: `-` in front of a negative one. */
  function ShowSigned(n: int): (s: string)
    ensures |s| >= 1 && forall i :: 0 <= i < |s| ==> s[i] == '-' || IsDigit(s[i])
  {
    if n < 0 then ['-'] + Show(-n) else Show(n)
  }

  /** A signed rendering is a single word. */
  lemma ShowSignedWord(n: int)
    ensures IsWord(ShowSigned(n))
  {
  }

  /** A token that `str::parse::<i32>` accepts. */
  predicate IsI32(x: string) {
    ParseSigned(x, I32_MIN, I32_MAX).Some?
  }

  /** `str::parse::<i32>` of an accepted token. */
  function I32(x: string): (n: int)
    requires IsI32(x)
    ensures I32_MIN <= n <= I32_MAX
  {
    ParseSigned(x, I32_MIN, I32_MAX).value
  }

  /** The same for the signed parser, on both signs. */
  lemma ParseShowSigned(n: int, min: int, max: nat)
    requires min <= 0 && min <= n <= max
    ensures ParseSigned(ShowSigned(n), min, max) == Some(n)
  {
    if n < 0 {
      var s := ['-'] + Show(-n);
      assert s[1..] == Show(-n);
      ShowValue(-n);
    } else {
      ShowValue(n);
    }
  }
}
