/** The few java.lang.String and Integer operations the services rely on,
    written out over `seq<char>`. */
module Text {
  import opened Wrappers

  /** `String.trim()` removes every leading and trailing char whose code is
      at most U+0020 (space and the control characters). */
  predicate IsTrimmed(c: char) { c <= ' ' }

  function TrimStart(s: string): (r: string)
    ensures |r| <= |s| && r == s[|s| - |r|..]
    ensures r == [] || !IsTrimmed(r[0])
    ensures forall i :: 0 <= i < |s| - |r| ==> IsTrimmed(s[i])
  {
    if s != [] && IsTrimmed(s[0]) then TrimStart(s[1..]) else s
  }

  function TrimEnd(s: string): (r: string)
    ensures |r| <= |s| && r == s[..|r|]
    ensures r == [] || !IsTrimmed(r[|r| - 1])
    ensures forall i :: |r| <= i < |s| ==> IsTrimmed(s[i])
  {
    if s != [] && IsTrimmed(s[|s| - 1]) then TrimEnd(s[..|s| - 1]) else s
  }

  /** `String.trim()`: the result is the infix of `s` that neither starts nor
      ends with a trimmed char; everything cut away is trimmed chars. */
  function Trim(s: string): (r: string)
    ensures |r| <= |TrimStart(s)| <= |s|
    ensures r == s[|s| - |TrimStart(s)|..][..|r|]
    ensures r == [] || (!IsTrimmed(r[0]) && !IsTrimmed(r[|r| - 1]))
  {
    TrimEnd(TrimStart(s))
  }

  /** Blank: every char would be trimmed away. */
  predicate IsBlank(s: string) { forall i :: 0 <= i < |s| ==> IsTrimmed(s[i]) }

  /** Blank is exactly `s.trim().isEmpty()`, the test behind @NotBlank and
      the services' own blank checks. */
  lemma {:induction false} BlankIffTrimEmpty(s: string)
    ensures IsBlank(s) <==> Trim(s) == []
  {
    var t := TrimStart(s);
    if !forall i :: 0 <= i < |s| ==> IsTrimmed(s[i]) {
      var i :| 0 <= i < |s| && !IsTrimmed(s[i]);
      assert |s| - |t| <= i;
      assert !IsTrimmed(t[i - (|s| - |t|)]);
    }
  }

  /** Trimming twice changes nothing. */
  lemma TrimIdempotent(s: string)
    ensures Trim(Trim(s)) == Trim(s)
  {
    var r := Trim(s);
    if r != [] {
      assert TrimStart(r) == r;
      assert TrimEnd(r) == r;
    }
  }

  /** `String.startsWith` */
  predicate StartsWith(s: string, prefix: string) {
    |prefix| <= |s| && s[..|prefix|] == prefix
  }

  /** `s.contains(sub)`, the meaning of SQL `LIKE '%sub%'` without wildcards. */
  predicate IsInfix(sub: string, s: string) {
    exists i :: 0 <= i <= |s| - |sub| && StartsWith(s[i..], sub)
  }

  /** `Character.isWhitespace`: the ASCII controls TAB to CR and FS to US,
      and the Unicode space, line and paragraph separators except the three
      no-break spaces (U+00A0, U+2007, U+202F). */
  predicate IsJavaWhitespace(c: char) {
    || '\t' <= c <= '\r'
    || '\U{001C}' <= c <= ' '
    || c == '\U{1680}'
    || ('\U{2000}' <= c <= '\U{200A}' && c != '\U{2007}')
    || c == '\U{2028}' || c == '\U{2029}' || c == '\U{205F}' || c == '\U{3000}'
  }

  /** Spring's `StringUtils.hasText`: some char is not whitespace. */
  predicate HasText(s: string) {
    exists i :: 0 <= i < |s| && !IsJavaWhitespace(s[i])
  }

  /** `Character.toLowerCase` on the ASCII letters; every other char is left
      alone.  Only comparisons against ASCII text use it (see LowerCase). */
  function LowerChar(c: char): char {
    if 'A' <= c <= 'Z' then (c as int + 32) as char else c
  }

  /** `String.toLowerCase()` as far as it decides a comparison with a
      lower-case ASCII word: no char outside ASCII lowers to one of the
      letters used here, so the comparison comes out as in Java. */
  function LowerCase(s: string): (r: string)
    ensures |r| == |s|
    ensures forall i :: 0 <= i < |s| ==> r[i] == LowerChar(s[i])
  {
    seq(|s|, i requires 0 <= i < |s| => LowerChar(s[i]))
  }

  /** Whether Java's `equalsIgnoreCase` treats char `c` as the same letter as
      the lower-case ASCII letter `a`: the letter itself, its capital, and the
      four non-ASCII chars whose upper or lower case is an ASCII letter
      (U+017F long s, U+0131 dotless i, U+0130 dotted I, U+212A Kelvin sign). */
  predicate SameLetterIgnoringCase(c: char, a: char)
    requires 'a' <= a <= 'z'
  {
    || LowerChar(c) == a
    || (a == 's' && c == 'ſ')
    || (a == 'i' && (c == 'ı' || c == 'İ'))
    || (a == 'k' && c == 'K')
  }

  predicate IsLowerAsciiWord(w: string) {
    forall i :: 0 <= i < |w| ==> 'a' <= w[i] <= 'z'
  }

  /** `word.equalsIgnoreCase(s)` for a lower-case ASCII `word`; a null `s`
      (None) never matches. */
  predicate EqualsIgnoreCase(word: string, s: Option<string>)
    requires IsLowerAsciiWord(word)
  {
    s.Some? && |s.value| == |word| &&
    forall i :: 0 <= i < |word| ==> SameLetterIgnoringCase(s.value[i], word[i])
  }

  // ---- decimal digits, Integer.parseInt and Long.toString ----

  predicate IsDigit(c: char) { '0' <= c <= '9' }

  predicate AllDigits(s: string) { forall i :: 0 <= i < |s| ==> IsDigit(s[i]) }

  function DigitValue(c: char): (d: nat)
    requires IsDigit(c)
    ensures d < 10
  {
    c as int - '0' as int
  }

  function DigitChar(d: nat): (c: char)
    requires d < 10
    ensures IsDigit(c) && DigitValue(c) == d
  {
    ('0' as int + d) as char
  }

  /** The value of a string of decimal digits, most significant first. */
  function DigitsValue(s: string): nat
    requires AllDigits(s)
  {
    if s == [] then 0 else DigitsValue(s[..|s| - 1]) * 10 + DigitValue(s[|s| - 1])
  }

  /** The decimal digits of `n`, no leading zero. */
  function NatToString(n: nat): (s: string)
    ensures AllDigits(s) && s != []
  {
    if n < 10 then [DigitChar(n)] else NatToString(n / 10) + [DigitChar(n % 10)]
  }

  /** Printing a natural number and reading it back gives the number. */
  lemma {:induction false} NatToStringRoundTrip(n: nat)
    ensures DigitsValue(NatToString(n)) == n
  {
    if n >= 10 {
      NatToStringRoundTrip(n / 10);
      var s := NatToString(n);
      assert s[..|s| - 1] == NatToString(n / 10);
    }
  }

  /** `Long.toString` (and `String.valueOf(long)`). */
  function IntToString(n: int): string {
    if n < 0 then "-" + NatToString(-n) else NatToString(n)
  }

  const Int32Min: int := -0x8000_0000
  const Int32Max: int := 0x7FFF_FFFF

  predicate InInt32(n: int) { Int32Min <= n <= Int32Max }

  /** `Integer.parseInt(s)`, None for a NumberFormatException: an optional
      `+` or `-`, then at least one decimal digit, and a value that fits in
      32 bits. */
  function ParseInt(s: string): (r: Option<int>)
    ensures r.Some? ==> InInt32(r.value)
  {
    if s == [] then None
    else
      var signed := s[0] == '-' || s[0] == '+';
      var digits := if signed then s[1..] else s;
      if digits == [] || !AllDigits(digits) then None
      else
        var v: int := if s[0] == '-' then -(DigitsValue(digits) as int) else DigitsValue(digits);
        if InInt32(v) then Some(v) else None
  }

  /** Every 32-bit integer survives printing and parsing. */
  lemma IntToStringParseInt(n: int)
    requires InInt32(n)
    ensures ParseInt(IntToString(n)) == Some(n)
  {
    if n < 0 {
      NatToStringRoundTrip(-n);
      assert IntToString(n)[1..] == NatToString(-n);
    } else {
      NatToStringRoundTrip(n);
    }
  }

  /** A digit string is rejected by `Integer.parseInt` exactly when its value
      exceeds 2^31 - 1. */
  lemma ParseIntRejectsOverflow(s: string)
    requires s != [] && AllDigits(s)
    ensures ParseInt(s).None? <==> DigitsValue(s) > Int32Max
  {
  }
}
