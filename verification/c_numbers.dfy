/**
 * The C and C++ text-to-integer conversions the configuration layer uses
 * on the text of script values: std::atoi for option values and std::stoi
 * for PassIterations.
 *
 * Both read, after leading white space, an optional sign and the longest
 * run of decimal digits.  atoi yields 0 when there are no digits; stoi
 * throws instead, and also throws when the value does not fit a 32-bit
 * int.  Script numbers reach them as the text JS_ToCString prints: an
 * integral number below 10^21 in magnitude as a decimal integer, a larger
 * one in exponent form.
 */
module CNumbers {
  import opened Optional

  const IntMin: int := -0x8000_0000
  const IntMax: int := 0x7FFF_FFFF

  /** isspace in the C locale. */
  predicate IsSpace(c: char)
  {
    c == ' ' || '\t' <= c <= '\r'
  }

  predicate IsDigit(c: char)
  {
    '0' <= c <= '9'
  }

  predicate AllDigits(s: string)
  {
    forall i :: 0 <= i < |s| ==> IsDigit(s[i])
  }

  function DigitValue(c: char): (d: nat)
    requires IsDigit(c)
    ensures d < 10
  {
    c as int - '0' as int
  }

  /** The text after the leading white space. */
  function SkipSpaces(s: string): string
  {
    if s != [] && IsSpace(s[0]) then SkipSpaces(s[1..]) else s
  }

  /** SkipSpaces drops a prefix of white space and stops at anything else. */
  lemma {:induction false} SkipSpacesSpec(s: string)
    ensures var r := SkipSpaces(s);
            |r| <= |s| && r == s[|s| - |r|..] && (forall i :: 0 <= i < |s| - |r| ==> IsSpace(s[i]))
            && (r != [] ==> !IsSpace(r[0]))
  {
    if s != [] && IsSpace(s[0]) {
      var t, r := s[1..], SkipSpaces(s);
      SkipSpacesSpec(t);
      assert r == SkipSpaces(t);
      assert t[|t| - |r|..] == s[|s| - |r|..];
      forall i | 1 <= i < |s| - |r|
        ensures IsSpace(s[i])
      {
        assert s[i] == t[i - 1];
      }
    }
  }

  /** How many decimal digits s starts with. */
  function LeadingDigits(s: string): (n: nat)
    ensures n <= |s|
  {
    if s != [] && IsDigit(s[0]) then 1 + LeadingDigits(s[1..]) else 0
  }

  /** LeadingDigits counts the longest run of digits at the front. */
  lemma {:induction false} LeadingDigitsSpec(s: string)
    ensures var n := LeadingDigits(s);
            AllDigits(s[..n]) && (n < |s| ==> !IsDigit(s[n]))
  {
    if s != [] && IsDigit(s[0]) {
      LeadingDigitsSpec(s[1..]);
      var rest := LeadingDigits(s[1..]);
      assert s[..1 + rest] == [s[0]] + s[1..][..rest];
    }
  }

  /** The value of a run of decimal digits, most significant first; used
      only on runs of digits. */
  function DigitsValue(d: string): nat
  {
    if d == [] || !IsDigit(d[|d| - 1]) then 0
    else 10 * DigitsValue(d[..|d| - 1]) + DigitValue(d[|d| - 1])
  }

  /** What strtol reads in base 10: the signed value and how many digits
      it used. */
  datatype Scan = Scan(value: int, digits: nat)

  function ScanDecimal(s: string): Scan
  {
    var t := SkipSpaces(s);
    var signed := t != [] && (t[0] == '-' || t[0] == '+');
    var u := if signed then t[1..] else t;
    var n := LeadingDigits(u);
    var v: int := DigitsValue(u[..n]);
    Scan(if signed && t[0] == '-' then -v else v, n)
  }

  /** std::atoi; 0 when no digits are found. */
  function Atoi(s: string): int
  {
    ScanDecimal(s).value
  }

  /** std::stoi: None where it throws, because there are no digits or the
      value is outside int. */
  function Stoi(s: string): (r: Option<int>)
    ensures r.Some? ==> IntMin <= r.value <= IntMax
  {
    var sc := ScanDecimal(s);
    if sc.digits == 0 || sc.value < IntMin || sc.value > IntMax then None else Some(sc.value)
  }

  /** Where stoi succeeds, atoi reads the same number. */
  lemma StoiAgreesWithAtoi(s: string)
    requires Stoi(s).Some?
    ensures Atoi(s) == Stoi(s).value
    ensures ScanDecimal(s).digits > 0
  {
  }

  function DigitChar(d: nat): (c: char)
    requires d < 10
    ensures IsDigit(c) && DigitValue(c) == d
  {
    ('0' as int + d) as char
  }

  /** The decimal digits of n, without leading zeros. */
  function Digits(n: nat): (s: string)
    ensures |s| > 0 && AllDigits(s)
  {
    if n < 10 then [DigitChar(n)] else Digits(n / 10) + [DigitChar(n % 10)]
  }

  /** A decimal integer: how JS_ToCString prints an integral number of
      magnitude below 10^21 (the number itself up to 2^53; beyond that the
      shortest digits that identify the double, padded with zeros, which
      again form an integer). */
  function DecimalText(n: int): string
  {
    if n < 0 then "-" + Digits(-n) else Digits(n)
  }

  lemma {:induction false} DigitsValueOf(n: nat)
    ensures DigitsValue(Digits(n)) == n
  {
    if n >= 10 {
      var s := Digits(n);
      assert s[..|s| - 1] == Digits(n / 10);
      DigitsValueOf(n / 10);
    }
  }

  lemma {:induction false} AllDigitsLead(s: string)
    requires AllDigits(s)
    ensures LeadingDigits(s) == |s|
  {
    if s != [] {
      AllDigitsLead(s[1..]);
    }
  }

  /** A run of digits, with or without a minus sign, scans as its value. */
  lemma ScanRun(d: string, negative: bool)
    requires d != [] && AllDigits(d)
    ensures var v: int := DigitsValue(d);
            ScanDecimal(if negative then "-" + d else d) == Scan(if negative then -v else v, |d|)
  {
    var s := if negative then "-" + d else d;
    assert !IsSpace(s[0]);
    assert SkipSpaces(s) == s;
    if negative {
      assert s[1..] == d;
    }
    AllDigitsLead(d);
    assert d[..|d|] == d;
  }

  /** atoi reads back any printed integer. */
  lemma AtoiDecimal(n: int)
    ensures ScanDecimal(DecimalText(n)) == Scan(n, |Digits(if n < 0 then -n else n)|)
    ensures Atoi(DecimalText(n)) == n
  {
    var m: nat := if n < 0 then -n else n;
    DigitsValueOf(m);
    ScanRun(Digits(m), n < 0);
  }

  /** stoi reads back any printed int, and throws beyond int. */
  lemma StoiDecimal(n: int)
    ensures IntMin <= n <= IntMax ==> Stoi(DecimalText(n)) == Some(n)
    ensures n < IntMin || n > IntMax ==> Stoi(DecimalText(n)) == None
  {
    AtoiDecimal(n);
  }

  /** The exponent form JS_ToCString prints for an integral number of
      magnitude 10^21 or more: a minus sign for a negative number, a nonzero
      leading digit, then either '.' and more digits or 'e' and the
      exponent ("1e+21", "-1.5e+22"). */
  predicate ExponentText(s: string)
  {
    var m := if s != [] && s[0] == '-' then s[1..] else s;
    |m| >= 2 && '1' <= m[0] <= '9' && (m[1] == '.' || m[1] == 'e')
  }

  /** atoi and stoi read only the leading digit of a number in exponent
      form: a huge script number reads as a single digit of its sign, and
      stoi does not throw on it. */
  lemma ExponentLeadingDigit(s: string)
    requires ExponentText(s)
    ensures var negative := s[0] == '-';
            var d: int := DigitValue(if negative then s[1] else s[0]);
            1 <= d <= 9
            && Atoi(s) == (if negative then -d else d)
            && Stoi(s) == Some(if negative then -d else d)
  {
    var negative := s[0] == '-';
    var u := if negative then s[1..] else s;
    assert !IsSpace(s[0]);
    assert SkipSpaces(s) == s;
    assert u[1..][0] == u[1];
    assert LeadingDigits(u[1..]) == 0;
    assert LeadingDigits(u) == 1;
    var run := u[..1];
    assert run[..0] == [] && run[0] == u[0];
    assert DigitsValue(run) == DigitValue(u[0]);
    var d: int := DigitValue(u[0]);
    assert ScanDecimal(s) == Scan(if negative then -d else d, 1);
  }

  /** Text that does not start, after white space, with a sign or digit
      has no number: atoi gives 0 and stoi throws. */
  lemma NoNumber(s: string)
    requires var t := SkipSpaces(s); t == [] || (!IsDigit(t[0]) && t[0] != '-' && t[0] != '+')
    ensures Atoi(s) == 0 && Stoi(s) == None
  {
  }
}
