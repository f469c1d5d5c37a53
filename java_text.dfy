/** The pieces of the Java platform that the agency tools lean on for text:
    the ASCII character classes of java.util.regex, the case folding of
    `String.equalsIgnoreCase`, `StringUtils.isEmpty`, and decimal parsing as done
    by `Integer.parseInt` and `Long.parseLong`. */
module JavaText {
  import opened Wrappers

  /** `\d`: an ASCII digit. */
  predicate IsDigit(c: char) { '0' <= c <= '9' }

  /** `\w`: an ASCII letter, a digit or the underscore; `\W` is its complement. */
  predicate IsWordChar(c: char) { 'a' <= c <= 'z' || 'A' <= c <= 'Z' || c == '_' || IsDigit(c) }

  /** An ASCII letter. */
  predicate IsLetter(c: char) { 'a' <= c <= 'z' || 'A' <= c <= 'Z' }

  /** `\s`: space, tab, line feed, vertical tab, form feed, carriage return. */
  predicate IsSpace(c: char) {
    c == ' ' || c == '\t' || c == '\n' || c == '\U{B}' || c == '\U{C}' || c == '\r'
  }

  /** The characters that `.` refuses and before which `$` may match. */
  predicate IsLineTerminator(c: char) {
    c == '\n' || c == '\r' || c == '\U{85}' || c == '\U{2028}' || c == '\U{2029}'
  }

  /** The folding a CASE_INSENSITIVE pattern applies: US-ASCII letters only. */
  function AsciiLower(c: char): char {
    if 'A' <= c <= 'Z' then (c as int + 32) as char else c
  }

  /** `a` is matched by the case-insensitive pattern literal `b`. */
  predicate CiEq(a: string, b: string) {
    |a| == |b| && forall i | 0 <= i < |a| :: AsciiLower(a[i]) == AsciiLower(b[i])
  }

  /** The folding of `String.equalsIgnoreCase`: ASCII letters, plus the four
      characters whose Java upper or lower case is an ASCII letter (dotted
      capital I, dotless small i, long s, Kelvin sign). On a pair of characters
      one of which is ASCII, `Fold(c) == Fold(d)` is exactly Java's test. */
  function Fold(c: char): char {
    if 'A' <= c <= 'Z' then (c as int + 32) as char
    else if c == '\U{130}' || c == '\U{131}' then 'i'
    else if c == '\U{17F}' then 's'
    else if c == '\U{212A}' then 'k'
    else c
  }

  /** `a.equalsIgnoreCase(b)` for non-null `a` and `b`. */
  predicate EqualsIgnoreCase(a: string, b: string) {
    |a| == |b| && forall i | 0 <= i < |a| :: Fold(a[i]) == Fold(b[i])
  }

  /** Every match of a case-insensitive pattern literal is also an
      `equalsIgnoreCase` match. */
  lemma CiEqIsEqualsIgnoreCase(a: string, b: string)
    requires CiEq(a, b)
    ensures EqualsIgnoreCase(a, b)
  {
    forall i | 0 <= i < |a| ensures Fold(a[i]) == Fold(b[i]) {
      assert AsciiLower(a[i]) == AsciiLower(b[i]);
    }
  }

  /** `StringUtils.isEmpty`: null or of length zero. */
  predicate IsEmpty(s: Option<string>) { s.None? || s.value == [] }

  // ---------------------------------------------------------------------
  // Decimal numbers

  const IntMin: int := -0x8000_0000
  const IntMax: int := 0x7FFF_FFFF
  const LongMin: int := -0x8000_0000_0000_0000
  const LongMax: int := 0x7FFF_FFFF_FFFF_FFFF

  predicate AllDigits(s: string) { forall i | 0 <= i < |s| :: IsDigit(s[i]) }

  function DigitValue(c: char): nat
    requires IsDigit(c)
  {
    c as int - '0' as int
  }

  /** The value of a string of decimal digits, most significant first. */
  function DigitsValue(s: string): nat
    requires AllDigits(s)
  {
    if s == [] then 0 else DigitsValue(s[..|s| - 1]) * 10 + DigitValue(s[|s| - 1])
  }

  /** What follows an optional leading '-' or '+'. */
  function Magnitude(s: string): (m: string)
    ensures |m| <= |s|
  {
    if |s| > 0 && (s[0] == '-' || s[0] == '+') then s[1..] else s
  }

  /** The text `parseInt`/`parseLong` accept: an optional sign and at least one digit. */
  predicate IsDecimal(s: string) {
    |Magnitude(s)| > 0 && AllDigits(Magnitude(s))
  }

  function DecimalValue(s: string): int
    requires IsDecimal(s)
  {
    if s[0] == '-' then -(DigitsValue(Magnitude(s)) as int) else DigitsValue(Magnitude(s))
  }

  /** `Integer.parseInt(s)` (with `lo`, `hi` the int range) and `Long.parseLong(s)`
      (with the long range): `None` stands for the `NumberFormatException` thrown
      for a null or malformed string or for a value out of range. */
  function ParseDecimal(s: Option<string>, lo: int, hi: int): (r: Option<int>)
    ensures r.Some? <==> s.Some? && IsDecimal(s.value) && lo <= DecimalValue(s.value) <= hi
    ensures r.Some? ==> r.value == DecimalValue(s.value) && lo <= r.value <= hi
    ensures r.Some? ==> s.Some? && |s.value| > 0 && (IsDigit(s.value[0]) || s.value[0] == '-' || s.value[0] == '+')
    ensures r.Some? ==> forall i | 0 < i < |s.value| :: IsDigit(s.value[i])
  {
    if s.Some? && IsDecimal(s.value) && lo <= DecimalValue(s.value) <= hi then
      Some(DecimalValue(s.value))
    else
      None
  }

  /** The decimal digits of `n` without leading zeros. */
  function NatDigits(n: nat): (d: string)
    ensures |d| > 0 && AllDigits(d)
    decreases n
  {
    if n < 10 then ['0' + n as char] else NatDigits(n / 10) + ['0' + (n % 10) as char]
  }

  /** `Long.toString(n)`, the inverse of parsing on the values it produces. */
  function DecimalString(n: int): string {
    if n < 0 then "-" + NatDigits(-n) else NatDigits(n)
  }

  lemma {:induction false} NatDigitsValue(n: nat)
    ensures DigitsValue(NatDigits(n)) == n
    decreases n
  {
    if n >= 10 {
      var d := NatDigits(n / 10);
      var c := '0' + (n % 10) as char;
      assert (d + [c])[..|d|] == d;
      NatDigitsValue(n / 10);
    }
  }

  /** Parsing what `Long.toString` prints gives the number back, for every
      number in the parsed type's range. */
  lemma ParseDecimalRoundTrip(n: int, lo: int, hi: int)
    requires lo <= n <= hi
    ensures ParseDecimal(Some(DecimalString(n)), lo, hi) == Some(n)
  {
    var s := DecimalString(n);
    if n < 0 {
      NatDigitsValue(-n);
      assert Magnitude(s) == NatDigits(-n);
    } else {
      NatDigitsValue(n);
      assert Magnitude(s) == NatDigits(n);
    }
  }
}
