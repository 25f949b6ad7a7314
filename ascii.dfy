/// The C library's character handling in the "C" locale, as the server uses it:
/// `toupper`/`tolower`, `strcasecmp`/`strncasecmp`, `atoi` and the `%ld`
/// conversion of `fprintf`. Octets are modelled as `char`.
module Ascii {

  predicate IsLower(c: char) { 'a' <= c <= 'z' }
  predicate IsUpper(c: char) { 'A' <= c <= 'Z' }
  predicate IsDigit(c: char) { '0' <= c <= '9' }

  /** `isspace` in the "C" locale: space, \t, \n, \v, \f and \r. */
  predicate IsSpace(c: char) {
    c == ' ' || c == '\t' || c == '\n' || c == 11 as char || c == 12 as char || c == '\r'
  }

  /** `toupper`: only the 26 lower-case letters change. */
  function ToUpper(c: char): (u: char)
    ensures !IsLower(u)
    ensures IsLower(c) ==> IsUpper(u)
    ensures !IsLower(c) ==> u == c
  {
    if IsLower(c) then (c as int - 32) as char else c
  }

  /** `tolower`: only the 26 upper-case letters change. */
  function ToLower(c: char): (l: char)
    ensures !IsUpper(l)
    ensures IsUpper(c) ==> IsLower(l)
    ensures !IsUpper(c) ==> l == c
  {
    if IsUpper(c) then (c as int + 32) as char else c
  }

  /** Folding to upper case keeps the character's case-insensitive identity. */
  lemma ToUpperFolds(c: char)
    ensures ToLower(ToUpper(c)) == ToLower(c)
  {
  }

  /** The string `upcase` leaves behind: every character through `toupper`. */
  function UpperAscii(s: string): (r: string)
    ensures |r| == |s|
    ensures forall i :: 0 <= i < |s| ==> r[i] == ToUpper(s[i])
  {
    if s == [] then [] else [ToUpper(s[0])] + UpperAscii(s[1..])
  }

  /** `strcasecmp(a, b) == 0`. */
  predicate EqualsIgnoreCase(a: string, b: string) {
    |a| == |b| && forall i :: 0 <= i < |a| ==> ToLower(a[i]) == ToLower(b[i])
  }

  /** `strncasecmp(s, prefix, strlen(prefix)) == 0`: a shorter `s` ends in its
      terminating NUL, which differs from every character of `prefix`. */
  predicate HasPrefixIgnoreCase(s: string, prefix: string) {
    |s| >= |prefix| && EqualsIgnoreCase(s[..|prefix|], prefix)
  }

  /** Upper-casing keeps the length and matches the original ignoring case,
      and nothing lower-case is left. */
  lemma UpperAsciiMatches(s: string)
    ensures |UpperAscii(s)| == |s|
    ensures EqualsIgnoreCase(UpperAscii(s), s)
    ensures forall i :: 0 <= i < |s| ==> !IsLower(UpperAscii(s)[i])
  {
    forall i | 0 <= i < |s| ensures ToLower(UpperAscii(s)[i]) == ToLower(s[i]) {
      ToUpperFolds(s[i]);
    }
  }

  /** Upper-casing twice is upper-casing once. */
  lemma UpperAsciiIdempotent(s: string)
    ensures UpperAscii(UpperAscii(s)) == UpperAscii(s)
  {
  }

  /** Case-insensitive equality is an equivalence. */
  lemma EqualsIgnoreCaseEquivalence(a: string, b: string, c: string)
    ensures EqualsIgnoreCase(a, a)
    ensures EqualsIgnoreCase(a, b) ==> EqualsIgnoreCase(b, a)
    ensures EqualsIgnoreCase(a, b) && EqualsIgnoreCase(b, c) ==> EqualsIgnoreCase(a, c)
  {
  }

  // ---------------------------------------------------------------- atoi

  predicate AllDigits(s: string) {
    forall i :: 0 <= i < |s| ==> IsDigit(s[i])
  }

  function DigitValue(c: char): (d: nat)
    requires IsDigit(c)
    ensures d < 10
  {
    c as int - '0' as int
  }

  function DigitChar(d: nat): (c: char)
    requires d < 10
    ensures IsDigit(c) && DigitValue(c) == d
  {
    ('0' as int + d) as char
  }

  /** The number a run of decimal digits denotes, most significant first. */
  function DigitsValue(s: string): nat
    requires AllDigits(s)
  {
    if s == [] then 0 else 10 * DigitsValue(s[..|s| - 1]) + DigitValue(s[|s| - 1])
  }

  /** What is left after `atoi` skips leading white space. */
  function SkipSpaces(s: string): (r: string)
    ensures |r| <= |s| && r == s[|s| - |r|..]
    ensures r == [] || !IsSpace(r[0])
    ensures forall i :: 0 <= i < |s| - |r| ==> IsSpace(s[i])
  {
    if s != [] && IsSpace(s[0]) then SkipSpaces(s[1..]) else s
  }

  /** The longest prefix of decimal digits. */
  function LeadingDigits(s: string): (d: string)
    ensures AllDigits(d)
  {
    if s != [] && IsDigit(s[0]) then [s[0]] + LeadingDigits(s[1..]) else []
  }

  /** What `strtol` in base 10 reads once the white space is skipped: an
      optional sign, then as many digits as follow; 0 when there are none. */
  function SignedDigits(t: string): int {
    if t != [] && t[0] == '-' then 0 - DigitsValue(LeadingDigits(t[1..])) as int
    else if t != [] && t[0] == '+' then DigitsValue(LeadingDigits(t[1..]))
    else DigitsValue(LeadingDigits(t))
  }

  /** `atoi` as glibc implements it (`strtol` in base 10): white space, an
      optional sign, then as many digits as follow; 0 when there are none. */
  function Atoi(s: string): int {
    var t := SkipSpaces(s);
    if t != [] && t[0] == '-' then 0 - DigitsValue(LeadingDigits(t[1..])) as int
    else if t != [] && t[0] == '+' then DigitsValue(LeadingDigits(t[1..]))
    else DigitsValue(LeadingDigits(t))
  }

  /** `%ld` of a non-negative value: decimal digits, no leading zero. */
  function NatToDecimal(n: nat): (s: string)
    ensures s != [] && AllDigits(s)
    ensures |s| > 1 ==> s[0] != '0'
  {
    if n < 10 then [DigitChar(n)] else NatToDecimal(n / 10) + [DigitChar(n % 10)]
  }

  /** The digits `%ld` prints denote the number printed. */
  lemma {:induction false} DecimalRoundTrip(n: nat)
    ensures DigitsValue(NatToDecimal(n)) == n
  {
    if n >= 10 {
      var s := NatToDecimal(n);
      assert s[..|s| - 1] == NatToDecimal(n / 10);
      DecimalRoundTrip(n / 10);
    }
  }

  /** A run of digits followed by something that is not a digit is exactly
      the leading-digit prefix. */
  lemma {:induction false} LeadingDigitsOfDigits(d: string, t: string)
    requires AllDigits(d)
    requires t == [] || !IsDigit(t[0])
    ensures LeadingDigits(d + t) == d
  {
    if d != [] {
      assert (d + t)[1..] == d[1..] + t;
      LeadingDigitsOfDigits(d[1..], t);
    } else {
      assert d + t == t;
    }
  }

  /** `atoi` of a run of digits, leading zeros allowed, followed by text
      that does not go on with a digit is the value of the run. */
  lemma AtoiOfDigits(d: string, t: string)
    requires d != [] && AllDigits(d)
    requires t == [] || !IsDigit(t[0])
    ensures Atoi(d + t) == DigitsValue(d)
  {
    AtoiIsSigned(d + t);
    assert SkipSpaces(d + t) == d + t by {
      assert (d + t)[0] == d[0] && IsDigit(d[0]);
    }
    SignedDigitsOfUnsigned(d, t);
  }

  /** Skipping white space in front of text that does not start with any
      leaves exactly that text. */
  lemma {:induction false} SkipSpacesOf(ws: string, rest: string)
    requires forall i :: 0 <= i < |ws| ==> IsSpace(ws[i])
    requires rest == [] || !IsSpace(rest[0])
    ensures SkipSpaces(ws + rest) == rest
  {
    if ws != [] {
      assert (ws + rest)[1..] == ws[1..] + rest;
      SkipSpacesOf(ws[1..], rest);
    } else {
      assert ws + rest == rest;
    }
  }

  /** A minus sign, then digits: the negated value of the digits. */
  lemma SignedDigitsOfNegative(d: string, t: string)
    requires AllDigits(d)
    requires t == [] || !IsDigit(t[0])
    ensures SignedDigits("-" + d + t) == 0 - DigitsValue(d)
  {
    var s := "-" + d + t;
    assert s[0] == '-' && s[1..] == d + t;
    LeadingDigitsOfDigits(d, t);
  }

  /** A plus sign, then digits: the value of the digits. */
  lemma SignedDigitsOfPositive(d: string, t: string)
    requires AllDigits(d)
    requires t == [] || !IsDigit(t[0])
    ensures SignedDigits("+" + d + t) == DigitsValue(d)
  {
    var s := "+" + d + t;
    assert s[0] == '+' && s[1..] == d + t;
    LeadingDigitsOfDigits(d, t);
  }

  /** No sign, digits first: the value of the digits. */
  lemma SignedDigitsOfUnsigned(d: string, t: string)
    requires d != [] && AllDigits(d)
    requires t == [] || !IsDigit(t[0])
    ensures SignedDigits(d + t) == DigitsValue(d)
  {
    var s := d + t;
    assert s[0] == d[0] && IsDigit(d[0]);
    LeadingDigitsOfDigits(d, t);
  }

  /** `atoi` in full: white space, an optional sign and a run of digits
      (leading zeros allowed), followed by a non-digit, give the signed value
      of the run; so `-5\r\n` gives -5 and ` 7` gives 7. */
  lemma AtoiOfNumber(ws: string, sign: string, d: string, t: string)
    requires forall i :: 0 <= i < |ws| ==> IsSpace(ws[i])
    requires sign == "" || sign == "+" || sign == "-"
    requires d != [] && AllDigits(d)
    requires t == [] || !IsDigit(t[0])
    ensures Atoi(ws + sign + d + t) == if sign == "-" then 0 - DigitsValue(d) else DigitsValue(d)
  {
    AtoiIsSigned(ws + sign + d + t);
    SkipOfNumber(ws, sign, d, t);
    SignedOfNumber(sign, d, t);
  }

  /** `atoi` is `SignedDigits` after the white space. */
  lemma AtoiIsSigned(s: string)
    ensures Atoi(s) == SignedDigits(SkipSpaces(s))
  {
  }

  /** The white space in front of a signed number is skipped exactly. */
  lemma SkipOfNumber(ws: string, sign: string, d: string, t: string)
    requires forall i :: 0 <= i < |ws| ==> IsSpace(ws[i])
    requires sign == "" || sign == "+" || sign == "-"
    requires d != [] && AllDigits(d)
    ensures SkipSpaces(ws + sign + d + t) == sign + d + t
  {
    var rest := sign + d + t;
    assert ws + sign + d + t == ws + rest;
    assert rest[0] == (if sign == "" then d[0] else sign[0]);
    SkipSpacesOf(ws, rest);
  }

  /** A signed number, once the white space is gone. */
  lemma SignedOfNumber(sign: string, d: string, t: string)
    requires sign == "" || sign == "+" || sign == "-"
    requires d != [] && AllDigits(d)
    requires t == [] || !IsDigit(t[0])
    ensures SignedDigits(sign + d + t) == if sign == "-" then 0 - DigitsValue(d) else DigitsValue(d)
  {
    if sign == "-" {
      SignedDigitsOfNegative(d, t);
    } else if sign == "+" {
      SignedDigitsOfPositive(d, t);
    } else {
      assert sign + d + t == d + t;
      SignedDigitsOfUnsigned(d, t);
    }
  }

  /** `atoi` reads back what `%ld` printed, whatever non-digit text follows
      (the `\r\n` at the end of a header line, say). */
  lemma AtoiOfDecimal(n: nat, t: string)
    requires t == [] || !IsDigit(t[0])
    ensures Atoi(NatToDecimal(n) + t) == n
  {
    AtoiOfDigits(NatToDecimal(n), t);
    DecimalRoundTrip(n);
  }

  /** `atoi` of text with no digit after the white space and the optional
      sign is 0: an empty or blank version number, or `\r\n` alone. */
  lemma AtoiNoDigits(s: string)
    requires var t := SkipSpaces(s);
      var u := if t != [] && (t[0] == '-' || t[0] == '+') then t[1..] else t;
      u == [] || !IsDigit(u[0])
    ensures Atoi(s) == 0
  {
  }
}
