/** Character classes and string helpers of Python 3 that the pipeline relies on:
    `str.strip()`, `str(n)`, `int(digits)`, and the Unicode-dependent `\w`, `\d`
    and `str.lower()`, which are supplied as an oracle record. */
module Chars {

  /** Python's `str.isspace()` on one character: Unicode category Zs or
      bidirectional class WS, B or S.  The table is small enough to write out. */
  predicate IsSpace(c: char) {
    var k := c as int;
    || 0x09 <= k <= 0x0D
    || 0x1C <= k <= 0x20
    || k == 0x85 || k == 0xA0 || k == 0x1680
    || 0x2000 <= k <= 0x200A
    || k == 0x2028 || k == 0x2029 || k == 0x202F || k == 0x205F || k == 0x3000
  }

  function StripLeading(s: string): string {
    if |s| > 0 && IsSpace(s[0]) then StripLeading(s[1..]) else s
  }

  function StripTrailing(s: string): string {
    if |s| > 0 && IsSpace(s[|s| - 1]) then StripTrailing(s[..|s| - 1]) else s
  }

  /** Python's `str.strip()` with no argument. */
  function Strip(s: string): string {
    StripTrailing(StripLeading(s))
  }

  /** StripLeading drops exactly the longest all-whitespace prefix. */
  lemma {:induction false} StripLeadingSpec(s: string)
    ensures var r := StripLeading(s);
      && |r| <= |s| && r == s[|s| - |r|..]
      && (forall i :: 0 <= i < |s| - |r| ==> IsSpace(s[i]))
      && (|r| > 0 ==> !IsSpace(r[0]))
  {
    if |s| > 0 && IsSpace(s[0]) {
      StripLeadingSpec(s[1..]);
    }
  }

  /** StripTrailing drops exactly the longest all-whitespace suffix. */
  lemma {:induction false} StripTrailingSpec(s: string)
    ensures var r := StripTrailing(s);
      && |r| <= |s| && r == s[..|r|]
      && (forall i :: |r| <= i < |s| ==> IsSpace(s[i]))
      && (|r| > 0 ==> !IsSpace(r[|r| - 1]))
  {
    if |s| > 0 && IsSpace(s[|s| - 1]) {
      StripTrailingSpec(s[..|s| - 1]);
    }
  }

  /** `s.strip()` is the slice of `s` left after cutting whitespace off both
      ends: it neither starts nor ends with whitespace, and all that was cut is
      whitespace. */
  lemma StripSpec(s: string)
    ensures var r := Strip(s);
      var a := |s| - |StripLeading(s)|;
      && 0 <= a && a + |r| <= |s|
      && r == s[a..a + |r|]
      && (forall i :: 0 <= i < a ==> IsSpace(s[i]))
      && (forall i :: a + |r| <= i < |s| ==> IsSpace(s[i]))
      && (|r| == 0 || (!IsSpace(r[0]) && !IsSpace(r[|r| - 1])))
  {
    var t := StripLeading(s);
    StripLeadingSpec(s);
    StripTrailingSpec(t);
    var r := StripTrailing(t);
    var a := |s| - |t|;
    assert r == t[..|r|] && t == s[a..];
    assert forall i :: a + |r| <= i < |s| ==> s[i] == t[i - a];
  }

  /** What a regex `.*` without DOTALL consumes: everything before the first newline. */
  function UpToNewline(s: string): string {
    if |s| == 0 || s[0] == '\n' then [] else [s[0]] + UpToNewline(s[1..])
  }

  /** `.*` takes the longest newline-free prefix. */
  lemma {:induction false} UpToNewlineSpec(s: string)
    ensures var r := UpToNewline(s);
      && r <= s
      && '\n' !in r
      && (|r| < |s| ==> s[|r|] == '\n')
  {
    if |s| > 0 && s[0] != '\n' {
      UpToNewlineSpec(s[1..]);
    }
  }

  predicate IsAscii(c: char) { c as int < 128 }

  predicate IsAsciiLetter(c: char) { 'a' <= c <= 'z' || 'A' <= c <= 'Z' }

  predicate IsAsciiDigit(c: char) { '0' <= c <= '9' }

  predicate AllAscii(s: string) { forall i :: 0 <= i < |s| ==> IsAscii(s[i]) }

  predicate AllAsciiLetters(s: string) { forall i :: 0 <= i < |s| ==> IsAsciiLetter(s[i]) }

  function AsciiLowerChar(c: char): char {
    if 'A' <= c <= 'Z' then (c as int + 32) as char else c
  }

  /** `str.lower()` restricted to ASCII text. */
  function AsciiLower(s: string): string {
    seq(|s|, i requires 0 <= i < |s| => AsciiLowerChar(s[i]))
  }

  /** The parts of Python's Unicode database the pipeline consults.  Only their
      behaviour on ASCII is pinned down (see AgreesOnAscii); beyond ASCII they
      are whatever the running Python's tables say. */
  datatype Unicode = Unicode(
    isWordChar: char -> bool,     // `\w` in a str pattern
    isDecimal: char -> bool,      // `\d` in a str pattern
    decimalValue: char -> nat,    // the digit value `int()` gives a `\d` character
    lower: string -> string)      // `str.lower()`

  /** The ASCII facts every Python 3 satisfies. */
  ghost predicate AgreesOnAscii(u: Unicode) {
    && (forall c :: IsAscii(c) ==> (u.isWordChar(c) <==> IsAsciiLetter(c) || IsAsciiDigit(c) || c == '_'))
    && (forall c :: IsAscii(c) ==> (u.isDecimal(c) <==> IsAsciiDigit(c)))
    && (forall c :: IsAsciiDigit(c) ==> u.decimalValue(c) == c as int - '0' as int)
    && (forall s :: AllAscii(s) ==> u.lower(s) == AsciiLower(s))
  }

  function DigitChar(d: nat): char
    requires d < 10
  {
    ('0' as int + d) as char
  }

  /** Python's `str(n)` for a non-negative integer. */
  function Show(n: nat): (r: string)
    ensures |r| > 0
    ensures forall i :: 0 <= i < |r| ==> IsAsciiDigit(r[i])
    ensures r[0] == '0' ==> n == 0
  {
    if n < 10 then [DigitChar(n)] else Show(n / 10) + [DigitChar(n % 10)]
  }

  /** Python's `int(digits)` for a run of `\d` characters. */
  function ParseDecimal(u: Unicode, ds: string): nat {
    if |ds| == 0 then 0
    else ParseDecimal(u, ds[..|ds| - 1]) * 10 + u.decimalValue(ds[|ds| - 1])
  }

  /** `int(str(n)) == n`. */
  lemma {:induction false} ShowParses(u: Unicode, n: nat)
    requires AgreesOnAscii(u)
    ensures ParseDecimal(u, Show(n)) == n
  {
    var s := Show(n);
    if n < 10 {
      assert s[..|s| - 1] == [];
    } else {
      assert s[..|s| - 1] == Show(n / 10);
      ShowParses(u, n / 10);
    }
  }

  lemma AsciiLowerOfLetters(s: string)
    requires AllAsciiLetters(s)
    ensures |AsciiLower(s)| == |s|
    ensures AllAsciiLetters(AsciiLower(s))
    ensures forall i :: 0 <= i < |s| ==> 'a' <= AsciiLower(s)[i] <= 'z'
    ensures AsciiLower(AsciiLower(s)) == AsciiLower(s)
  {
  }
}
