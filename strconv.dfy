/**
 * The parts of Go's `strconv` and `fmt` that the converters rely on:
 * base-10 parsing of 64-bit unsigned and signed integers, boolean literals,
 * and `%d` formatting, with the round trip between formatting and parsing.
 */
module Strconv {
  import opened Values

  predicate IsDigit(c: char) {
    '0' <= c <= '9'
  }

  predicate AllDigits(s: string) {
    forall i :: 0 <= i < |s| ==> IsDigit(s[i])
  }

  function DigitValue(c: char): (d: nat)
    requires IsDigit(c)
    ensures d < 10
  {
    c as int - '0' as int
  }

  function DigitChar(d: nat): (c: char)
    requires d < 10
    ensures IsDigit(c) && DigitValue(c) == d
  {
    ('0' as int + d) as char
  }

  /** The number a string of decimal digits denotes (most significant digit first). */
  function DigitsValue(s: string): nat
    requires AllDigits(s)
  {
    if |s| == 0 then 0 else DigitsValue(s[..|s| - 1]) * 10 + DigitValue(s[|s| - 1])
  }

  /** The grammar `strconv.ParseUint(s, 10, 64)` accepts: one or more digits, nothing else. */
  predicate IsUnsignedLiteral(s: string) {
    |s| > 0 && AllDigits(s)
  }

  /** `strconv.ParseUint(s, 10, 64)`. */
  function ParseUint(s: string): (r: Result<uint64>)
    ensures r.Success? <==> IsUnsignedLiteral(s) && DigitsValue(s) <= MAX_UINT64
    ensures r.Success? ==> r.value == DigitsValue(s)
    ensures r.Failure? ==> r.error == NumError(s)
  {
    if !IsUnsignedLiteral(s) then Failure(NumError(s))
    else
      var n := DigitsValue(s);
      if n > MAX_UINT64 then Failure(NumError(s)) else Success(n)
  }

  /** Whether the literal starts with a minus sign. */
  predicate IsNegative(s: string) {
    |s| > 0 && s[0] == '-'
  }

  /** The literal without its leading `+` or `-`, if it has one. */
  function Unsigned(s: string): (u: string)
    ensures |u| <= |s|
  {
    if |s| > 0 && (s[0] == '+' || s[0] == '-') then s[1..] else s
  }

  /** The grammar `strconv.ParseInt(s, 10, 64)` accepts: an optional sign, then one or more digits. */
  predicate IsSignedLiteral(s: string) {
    IsUnsignedLiteral(Unsigned(s))
  }

  /** The value of a signed literal. */
  function SignedValue(s: string): int
    requires IsSignedLiteral(s)
  {
    if IsNegative(s) then -(DigitsValue(Unsigned(s)) as int) else DigitsValue(Unsigned(s))
  }

  /**
   * `strconv.ParseInt(s, 10, 64)`: an empty string fails; a leading sign is
   * taken off; the rest goes through ParseUint; the magnitude must then fit
   * the signed range (2^63 is allowed only after a minus sign).
   */
  function ParseInt(s: string): (r: Result<int64>)
    ensures r.Success? <==> IsSignedLiteral(s) && MIN_INT64 <= SignedValue(s) <= MAX_INT64
    ensures r.Success? ==> r.value == SignedValue(s)
    ensures r.Failure? ==> r.error == NumError(s)
  {
    if |s| == 0 then Failure(NumError(s))
    else
      var neg := s[0] == '-';
      var rest := if s[0] == '+' || s[0] == '-' then s[1..] else s;
      match ParseUint(rest)
      case Failure(_) => Failure(NumError(s))
      case Success(un) =>
        if !neg && un >= 0x8000_0000_0000_0000 then Failure(NumError(s))
        else if neg && un > 0x8000_0000_0000_0000 then Failure(NumError(s))
        else if neg then Success(-(un as int)) else Success(un as int)
  }

  /** The literals `strconv.ParseBool` reads as true, and those it reads as false. */
  const TrueLiterals: set<string> := {"1", "t", "T", "true", "TRUE", "True"}
  const FalseLiterals: set<string> := {"0", "f", "F", "false", "FALSE", "False"}

  /** `strconv.ParseBool`: the twelve literals Go accepts; anything else is a syntax error. */
  function ParseBool(s: string): (r: Result<bool>)
    ensures r.Success? <==> s in TrueLiterals + FalseLiterals
    ensures r.Success? ==> (r.value <==> s in TrueLiterals)
    ensures r.Failure? ==> r.error == NumError(s)
  {
    if s == "1" || s == "t" || s == "T" || s == "true" || s == "TRUE" || s == "True" then Success(true)
    else if s == "0" || s == "f" || s == "F" || s == "false" || s == "FALSE" || s == "False" then Success(false)
    else Failure(NumError(s))
  }

  /** The shortest decimal spelling of a natural number. */
  function ShowNat(n: nat): (s: string)
    ensures IsUnsignedLiteral(s) && DigitsValue(s) == n
  {
    if n < 10 then [DigitChar(n)]
    else
      var s := ShowNat(n / 10) + [DigitChar(n % 10)];
      assert s[..|s| - 1] == ShowNat(n / 10);
      s
  }

  /** `fmt.Sprintf("%d", i)`: a minus sign for negative numbers, never a plus sign. */
  function FormatInt(i: int): string {
    if i < 0 then "-" + ShowNat(-i) else ShowNat(i)
  }

  lemma FormatIntDigits(i: int)
    ensures forall k :: 0 <= k < |FormatInt(i)| ==> IsDigit(FormatInt(i)[k]) || FormatInt(i)[k] == '-'
  {
    var s := ShowNat(if i < 0 then -i else i);
    if i < 0 {
      assert FormatInt(i) == "-" + s;
      forall k | 0 <= k < |FormatInt(i)|
        ensures IsDigit(FormatInt(i)[k]) || FormatInt(i)[k] == '-'
      {
        if k > 0 { assert FormatInt(i)[k] == s[k - 1]; }
      }
    }
  }

  /** `%d` prints a signed literal that denotes the number, for every integer, in range or not. */
  lemma FormatIntIsSigned(i: int)
    ensures IsSignedLiteral(FormatInt(i)) && SignedValue(FormatInt(i)) == i
  {
    var s := FormatInt(i);
    if i < 0 {
      assert s[1..] == ShowNat(-i);
      assert Unsigned(s) == ShowNat(-i);
    } else {
      assert Unsigned(s) == ShowNat(i);
    }
  }

  /** Parsing what `%d` printed gives the number back, for every signed 64-bit integer. */
  lemma ParseFormatInt(i: int64)
    ensures ParseInt(FormatInt(i)) == Success(i)
  {
    var s := FormatInt(i);
    if i < 0 {
      assert s[1..] == ShowNat(-(i as int));
      assert Unsigned(s) == ShowNat(-(i as int));
    } else {
      assert Unsigned(s) == ShowNat(i);
    }
  }
}
