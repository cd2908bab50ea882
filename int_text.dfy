/** Decimal text of 64-bit integers, as the standard library reads and writes it:
    `std::from_chars` into an `int64_t` (the `stoi` lambda of the command-line
    parser) and `std::ostream << int64_t` (the equation prefix of a result). */
module IntText {
  import opened Wrappers
  import opened Types

  predicate IsDigit(c: char) {
    '0' <= c <= '9'
  }

  predicate AllDigits(s: string) {
    forall k :: 0 <= k < |s| ==> IsDigit(s[k])
  }

  function DigitValue(c: char): nat
    requires IsDigit(c)
  {
    c as int - '0' as int
  }

  function DigitChar(d: nat): (c: char)
    requires d < 10
    ensures IsDigit(c) && DigitValue(c) == d
  {
    ('0' as int + d) as char
  }

  /** The value of a string of digits, most significant first. */
  function DigitsValue(s: string): nat
    requires AllDigits(s)
  {
    if s == [] then 0 else 10 * DigitsValue(s[..|s| - 1]) + DigitValue(s[|s| - 1])
  }

  /** What `std::from_chars` for a signed integer consumes: an optional '-'
      (never '+', never blanks) followed by at least one digit. The `stoi`
      lambda further demands that this covers the whole string. */
  predicate IsDecimalLiteral(s: string) {
    if |s| > 0 && s[0] == '-' then |s| > 1 && AllDigits(s[1..])
    else |s| > 0 && AllDigits(s)
  }

  function LiteralValue(s: string): int
    requires IsDecimalLiteral(s)
  {
    if s[0] == '-' then -(DigitsValue(s[1..]) as int) else DigitsValue(s)
  }

  /** The `stoi` lambda of `CliParser::_parseTriplet`: the empty string fails,
      anything from_chars leaves unread fails, and a value outside int64 fails
      (`errc::result_out_of_range`). */
  function ParseInt64(s: string): (r: Option<Int64>)
    ensures s == [] ==> r == None
    ensures r.Some? ==> IsDecimalLiteral(s) && (s[0] == '-' || IsDigit(s[0]))
    ensures r.Some? && r.value < 0 ==> s[0] == '-'
  {
    if IsDecimalLiteral(s) && InInt64(LiteralValue(s)) then Some(LiteralValue(s)) else None
  }

  /** `std::ostream << n` for a non-negative value: no sign, no leading zeros. */
  function FormatNat(n: nat): (s: string)
    ensures |s| > 0 && AllDigits(s)
    ensures s[0] == '0' ==> n == 0
  {
    if n < 10 then [DigitChar(n)] else FormatNat(n / 10) + [DigitChar(n % 10)]
  }

  /** `std::ostream << n` for any value: a '-' in front of a negative one. */
  function FormatInt(n: int): (s: string)
    ensures IsDecimalLiteral(s)
  {
    if n < 0 then "-" + FormatNat(-n) else FormatNat(n)
  }

  lemma {:induction false} FormatNatValue(n: nat)
    ensures DigitsValue(FormatNat(n)) == n
  {
    if n >= 10 {
      FormatNatValue(n / 10);
      var s := FormatNat(n);
      assert s[..|s| - 1] == FormatNat(n / 10);
    }
  }

  /** Reading back what was written gives the value again. */
  lemma LiteralOfFormat(n: int)
    ensures LiteralValue(FormatInt(n)) == n
  {
    FormatNatValue(if n < 0 then -n else n);
    if n < 0 {
      assert FormatInt(n)[1..] == FormatNat(-n);
    }
  }

  /** The `stoi` lambda accepts the decimal text of every int64 and returns
      that int64. */
  lemma ParseFormatRoundTrip(n: Int64)
    ensures ParseInt64(FormatInt(n)) == Some(n)
  {
    LiteralOfFormat(n);
  }

  /** Distinct integers are written as distinct text. */
  lemma FormatIntInjective(m: int, n: int)
    requires FormatInt(m) == FormatInt(n)
    ensures m == n
  {
    LiteralOfFormat(m);
    LiteralOfFormat(n);
  }

  /** Decimal text holds neither of the separators a result or a diagnostic uses. */
  lemma FormatIntHasNoSeparator(n: int)
    ensures ',' !in FormatInt(n) && ')' !in FormatInt(n) && ' ' !in FormatInt(n)
  {
    var s := FormatInt(n);
    if n < 0 {
      assert forall k :: 1 <= k < |s| ==> s[k] == s[1..][k - 1];
    }
  }

  /** The text of a value outside int64 is rejected (`errc::result_out_of_range`). */
  lemma ParseInt64RejectsOverflow(n: int)
    requires !InInt64(n)
    ensures ParseInt64(FormatInt(n)) == None
  {
    LiteralOfFormat(n);
  }

  /** What the lambda rejects: the empty string, a lone sign, a '+' sign,
      leading blanks and trailing garbage. */
  lemma ParseInt64Rejects()
    ensures ParseInt64("") == None
    ensures ParseInt64("-") == None
    ensures ParseInt64("+1") == None
    ensures ParseInt64(" 1") == None
    ensures ParseInt64("1a") == None
    ensures ParseInt64("a") == None
  {
    assert !IsDigit('a') && !IsDigit('+') && !IsDigit('-') && !IsDigit(' ');
    assert "1a"[1] == 'a';
  }

  /** What the lambda accepts besides canonical text: leading zeros and a
      negative zero. */
  lemma ParseInt64Accepts()
    ensures ParseInt64("-1") == Some(-1)
    ensures ParseInt64("007") == Some(7)
    ensures ParseInt64("-0") == Some(0)
  {
    assert "-1"[1..] == "1";
    assert "007"[..2] == "00" && "00"[..1] == "0";
    assert "-0"[1..] == "0";
  }
}
