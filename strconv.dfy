/**
  The two conversions of Go's strconv package that the aggregator uses to
  read numbers out of text fields: ParseInt(s, 10, 64) and Atoi(s). On a
  64-bit platform Atoi returns the same value and error as ParseInt(s, 10, 64)
  (its fast path for short inputs accepts exactly the same strings), so both
  are modelled by ParseInt below. FormatInt is the inverse used to state the
  parser's round trip.
*/
module Strconv {
  import opened GoInt

  const MAX_UINT64: int := 0xffff_ffff_ffff_ffff

  predicate IsDigit(c: char) { '0' <= c <= '9' }

  predicate AllDigits(s: string) { forall i :: 0 <= i < |s| ==> IsDigit(s[i]) }

  function DigitValue(c: char): (d: nat)
    requires IsDigit(c)
    ensures d < 10
  {
    c as int - '0' as int
  }

  function DigitChar(d: nat): (c: char)
    requires d < 10
    ensures IsDigit(c) && DigitValue(c) == d
  {
    ('0' as int + d) as char
  }

  /** The length of the run of decimal digits at the start of s. */
  function DigitRun(s: string): (n: nat)
    ensures n <= |s| && AllDigits(s[..n])
    ensures n < |s| ==> !IsDigit(s[n])
  {
    if s == [] || !IsDigit(s[0]) then 0
    else
      var m := DigitRun(s[1..]);
      assert s[..1 + m] == [s[0]] + s[1..][..m];
      1 + m
  }

  /** The value of a string of decimal digits, most significant digit first. */
  function DecimalValue(s: string): nat
    requires AllDigits(s)
  {
    if s == [] then 0
    else 10 * DecimalValue(s[..|s| - 1]) + DigitValue(s[|s| - 1])
  }

  /** Outcome of strconv.ParseUint(s, 10, 64). */
  datatype UintConversion = Unsigned(n: nat) | SyntaxError | RangeError

  /**
    ParseUint scans the digits left to right and stops with a range error as
    soon as the value read so far exceeds 2^64 - 1, before it looks at any
    later character; any other non-digit gives a syntax error.
  */
  function ParseUint(s: string): (r: UintConversion)
    ensures r.Unsigned? ==> AllDigits(s) && r.n == DecimalValue(s) && r.n <= MAX_UINT64
  {
    if s == [] then SyntaxError
    else
      var run := DigitRun(s);
      if DecimalValue(s[..run]) > MAX_UINT64 then RangeError
      else if run < |s| then SyntaxError
      else
        assert s[..run] == s;
        Unsigned(DecimalValue(s))
  }

  /** A value with Go's (int64, error) shape: ok is false when an error is returned. */
  datatype Conversion = Conversion(value: Int64, ok: bool)

  /**
    strconv.ParseInt(s, 10, 64): an optional '+' or '-' and decimal digits.
    On a syntax error the value is 0; on a range error it is the int64
    bound on the side of the sign.
  */
  function ParseInt(s: string): (r: Conversion)
    ensures !r.ok ==> r.value == 0 || r.value == MAX || r.value == MIN
  {
    if s == [] then Conversion(0, false)
    else
      var neg := s[0] == '-';
      var digits := if s[0] == '+' || s[0] == '-' then s[1..] else s;
      match ParseUint(digits)
      case SyntaxError => Conversion(0, false)
      case RangeError => if neg then Conversion(MIN, false) else Conversion(MAX, false)
      case Unsigned(n) =>
        if !neg && n > MAX then Conversion(MAX, false)
        else if neg && n > -MIN then Conversion(MIN, false)
        else Conversion(if neg then -(n as int) else n, true)
  }

  // ---------------------------------------------------------------------
  // The language ParseInt accepts, stated independently of the scan.

  /** s without its leading sign, if it has one. */
  function Magnitude(s: string): string
  {
    if |s| > 0 && (s[0] == '+' || s[0] == '-') then s[1..] else s
  }

  /** An optional sign followed by at least one decimal digit. */
  predicate WellFormed(s: string)
  {
    |Magnitude(s)| > 0 && AllDigits(Magnitude(s))
  }

  function SignedValue(s: string): int
    requires WellFormed(s)
  {
    if s[0] == '-' then -(DecimalValue(Magnitude(s)) as int) else DecimalValue(Magnitude(s))
  }

  /** A run of digits is the whole string exactly when the string is all digits. */
  lemma DigitRunWhole(s: string)
    ensures DigitRun(s) == |s| <==> AllDigits(s)
  {
    var n := DigitRun(s);
    if n == |s| {
      assert s[..n] == s;
    }
  }

  /**
    ParseInt succeeds exactly on well-formed text whose value fits in an
    int64, and then returns that value.
  */
  lemma ParseIntAccepts(s: string)
    ensures ParseInt(s).ok <==> WellFormed(s) && InRange(SignedValue(s))
    ensures ParseInt(s).ok ==> ParseInt(s).value == SignedValue(s)
  {
    if s != [] {
      var digits := Magnitude(s);
      DigitRunWhole(digits);
      if WellFormed(s) {
        var run := DigitRun(digits);
        assert digits[..run] == digits;
      }
    }
  }

  // ---------------------------------------------------------------------
  // Formatting, the inverse of parsing.

  /** Decimal digits of n, without leading zeros (strconv.FormatUint(n, 10)). */
  function Digits(n: nat): (s: string)
    ensures |s| > 0 && AllDigits(s) && DecimalValue(s) == n
    decreases n
  {
    if n < 10 then [DigitChar(n)]
    else
      var prefix := Digits(n / 10);
      var s := prefix + [DigitChar(n % 10)];
      assert s[..|s| - 1] == prefix;
      s
  }

  /** strconv.FormatInt(n, 10). */
  function FormatInt(n: int): string
  {
    if n < 0 then "-" + Digits(-n) else Digits(n)
  }

  /** Every int64 survives formatting and parsing back. */
  lemma ParseFormatRoundTrip(n: Int64)
    ensures ParseInt(FormatInt(n)) == Conversion(n, true)
  {
    var m: nat := if n < 0 then -(n as int) else n;
    var digits := Digits(m);
    DigitRunWhole(digits);
    assert digits[..|digits|] == digits;
    assert ParseUint(digits) == Unsigned(m);
    if n < 0 {
      var s := "-" + digits;
      assert s[0] == '-' && s[1..] == digits;
    } else {
      assert !(digits[0] == '+' || digits[0] == '-');
    }
  }
}
