/**
 * Decimal text as the C library reads and writes it: the integer prefix
 * atoi, atol and atof read, and the fixed-point text printf("%.Nf")
 * writes for an integral value.
 */
module Numbers {
  predicate IsDigit(c: char) { '0' <= c <= '9' }

  /** The characters isspace accepts in the C locale. */
  predicate IsSpace(c: char) { c == ' ' || c == '\t' || c == '\n' || c == '\U{B}' || c == '\U{C}' || c == '\r' }

  /** Decimal digits of n, without leading zeros. */
  function Digits(n: nat): (s: string)
    ensures |s| > 0 && forall k :: 0 <= k < |s| ==> IsDigit(s[k])
  {
    if n < 10 then [('0' as int + n) as char] else Digits(n / 10) + [('0' as int + n % 10) as char]
  }

  /** The value of a run of decimal digits. */
  function DigitsValue(s: string): nat
    requires forall k :: 0 <= k < |s| ==> IsDigit(s[k])
  {
    if |s| == 0 then 0
    else
      assert IsDigit(s[|s| - 1]);
      10 * DigitsValue(s[..|s| - 1]) + (s[|s| - 1] as int - '0' as int)
  }

  /** How many decimal digits `s` starts with. */
  function LeadingDigits(s: string): (k: nat)
    ensures k <= |s| && forall j :: 0 <= j < k ==> IsDigit(s[j])
    ensures k < |s| ==> !IsDigit(s[k])
  {
    if |s| == 0 || !IsDigit(s[0]) then 0 else 1 + LeadingDigits(s[1..])
  }

  /** How many white-space characters `s` starts with. */
  function LeadingSpaces(s: string): (k: nat)
    ensures k <= |s| && forall j :: 0 <= j < k ==> IsSpace(s[j])
    ensures k < |s| ==> !IsSpace(s[k])
  {
    if |s| == 0 || !IsSpace(s[0]) then 0 else 1 + LeadingSpaces(s[1..])
  }

  /** The value of the digits `s` starts with. */
  function DigitPrefixValue(s: string): nat
  {
    DigitsValue(s[..LeadingDigits(s)])
  }

  /** What atoi, atol (and atof, for the integral part) read: leading
   *  white space, an optional sign, then decimal digits; no digits read
   *  as 0. */
  function LeadingInteger(s: string): int
  {
    var t := s[LeadingSpaces(s)..];
    if |t| > 0 && t[0] == '-' then -(DigitPrefixValue(t[1..]) as int)
    else if |t| > 0 && t[0] == '+' then DigitPrefixValue(t[1..])
    else DigitPrefixValue(t)
  }

  /** The text printf("%d") writes. */
  function Decimal(n: int): string
  {
    (if n < 0 then "-" else "") + Digits(if n < 0 then -n else n)
  }

  /** The text printf("%.<decimals>f") writes for an integral value. */
  function Fixed(n: int, decimals: nat): string
  {
    Decimal(n) + "." + seq(decimals, _ => '0')
  }

  lemma {:induction false} DigitsRoundTrip(n: nat)
    ensures DigitsValue(Digits(n)) == n
    decreases n
  {
    if n >= 10 {
      var s := Digits(n);
      assert s[..|s| - 1] == Digits(n / 10);
      DigitsRoundTrip(n / 10);
    }
  }

  /** Digits followed by a non-digit, or by nothing: the digits are the
   *  leading run. */
  lemma {:induction false} LeadingDigitsStop(d: string, rest: string)
    requires forall k :: 0 <= k < |d| ==> IsDigit(d[k])
    requires |rest| == 0 || !IsDigit(rest[0])
    ensures LeadingDigits(d + rest) == |d|
    decreases |d|
  {
    if |d| > 0 {
      assert (d + rest)[1..] == d[1..] + rest;
      LeadingDigitsStop(d[1..], rest);
    } else {
      assert d + rest == rest;
    }
  }

  /** Digits followed by a non-digit, or by nothing, read as their value. */
  lemma DigitPrefixRead(d: string, rest: string)
    requires forall k :: 0 <= k < |d| ==> IsDigit(d[k])
    requires |rest| == 0 || !IsDigit(rest[0])
    ensures DigitPrefixValue(d + rest) == DigitsValue(d)
  {
    LeadingDigitsStop(d, rest);
    assert (d + rest)[..|d|] == d;
  }

  /** Text that does not start with white space is read from its start. */
  lemma NoLeadingSpace(s: string)
    requires |s| > 0 && (s[0] == '-' || IsDigit(s[0]))
    ensures s[LeadingSpaces(s)..] == s
  {
  }

  /** A negative number's digits read back, after its sign, as the number. */
  lemma NegativeRead(d: string, rest: string)
    requires |d| > 0 && forall k :: 0 <= k < |d| ==> IsDigit(d[k])
    requires |rest| == 0 || !IsDigit(rest[0])
    ensures LeadingInteger(['-'] + d + rest) == -(DigitsValue(d) as int)
  {
    var s := ['-'] + (d + rest);
    assert ['-'] + d + rest == s;
    NoLeadingSpace(s);
    assert LeadingInteger(s) == -(DigitPrefixValue(s[1..]) as int);
    assert s[1..] == d + rest;
    DigitPrefixRead(d, rest);
  }

  /** A non-negative number's digits read back as the number. */
  lemma NonNegativeRead(d: string, rest: string)
    requires |d| > 0 && forall k :: 0 <= k < |d| ==> IsDigit(d[k])
    requires |rest| == 0 || !IsDigit(rest[0])
    ensures LeadingInteger(d + rest) == DigitsValue(d)
  {
    var s := d + rest;
    assert s[0] == d[0];
    NoLeadingSpace(s);
    assert LeadingInteger(s) == DigitPrefixValue(s);
    DigitPrefixRead(d, rest);
  }

  /** A number's text, followed by anything that does not start with a
   *  digit, reads back as the number. */
  lemma DecimalRoundTrip(n: int, rest: string)
    requires |rest| == 0 || !IsDigit(rest[0])
    ensures LeadingInteger(Decimal(n) + rest) == n
  {
    if n < 0 {
      DigitsRoundTrip(-n);
      NegativeRead(Digits(-n), rest);
      assert Decimal(n) == ['-'] + Digits(-n);
    } else {
      DigitsRoundTrip(n);
      NonNegativeRead(Digits(n), rest);
      assert Decimal(n) == Digits(n);
    }
  }

  /** The fixed-point text of an integral value reads back as itself. */
  lemma FixedRoundTrip(n: int, decimals: nat)
    ensures LeadingInteger(Fixed(n, decimals)) == n
  {
    var rest := "." + seq(decimals, _ => '0');
    assert Fixed(n, decimals) == Decimal(n) + rest;
    DecimalRoundTrip(n, rest);
  }
}
