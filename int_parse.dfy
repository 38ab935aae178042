/** `int.Parse(string)` as the generator uses it on length and minLength facet
    literals: the .NET integer number style (leading and trailing white space, an
    optional leading sign, at least one decimal digit), trailing NUL characters
    tolerated, a format error taking precedence over an overflow, and the result
    bounded to a 32-bit signed integer. The culture's signs are taken to be `+`
    and `-`. */
module IntParse {
  import opened Wrappers

  const Int32Min: int := -0x8000_0000
  const Int32Max: int := 0x7FFF_FFFF

  /** Why a literal does not give a count: `FormatError` and `OverflowError` are
      the two exceptions of `int.Parse`; `NegativeCount` (for `n < 0`) and
      `StringTooLong` (an `OutOfMemoryException`, for `n` above the largest
      string length) are the two of `new string(c, n)`. */
  datatype FacetError =
    | FormatError(literal: string)
    | OverflowError(literal: string)
    | NegativeCount(count: int)
    | StringTooLong(count: int)

  predicate IsWhite(c: char) { c == ' ' || ('\t' <= c <= '\r') }

  predicate IsDigit(c: char) { '0' <= c <= '9' }

  predicate AllDigits(s: string) { forall i :: 0 <= i < |s| ==> IsDigit(s[i]) }

  /** The number of white-space characters `s` starts with. */
  function WhiteSpan(s: string): (n: nat)
    ensures n <= |s|
    ensures forall i :: 0 <= i < n ==> IsWhite(s[i])
    ensures n == |s| || !IsWhite(s[n])
  {
    if s != [] && IsWhite(s[0]) then 1 + WhiteSpan(s[1..]) else 0
  }

  /** The number of decimal digits `s` starts with. */
  function DigitSpan(s: string): (n: nat)
    ensures n <= |s|
    ensures AllDigits(s[..n])
    ensures n == |s| || !IsDigit(s[n])
  {
    if s != [] && IsDigit(s[0]) then 1 + DigitSpan(s[1..]) else 0
  }

  /** The value of a string of decimal digits, most significant first. */
  function DigitsValue(s: string): nat
    requires AllDigits(s)
  {
    if s == [] then 0 else DigitsValue(s[..|s| - 1]) * 10 + (s[|s| - 1] as int - '0' as int)
  }

  /** What may follow the digits: white space, then NUL characters only. */
  predicate TrailerOk(t: string)
  {
    var w := WhiteSpan(t);
    forall i :: w <= i < |t| ==> t[i] == '\0'
  }

  /** `int.Parse(s)`. */
  function ParseInt32(s: string): (r: Result<int, FacetError>)
    ensures r.Success? ==> Int32Min <= r.value <= Int32Max
    ensures r.Failure? ==> r.error == FormatError(s) || r.error == OverflowError(s)
  {
    var rest := s[WhiteSpan(s)..];
    var negative := rest != [] && rest[0] == '-';
    var unsigned := if rest != [] && (rest[0] == '-' || rest[0] == '+') then rest[1..] else rest;
    var d := DigitSpan(unsigned);
    if d == 0 || !TrailerOk(unsigned[d..]) then
      Failure(FormatError(s))
    else
      var magnitude: int := DigitsValue(unsigned[..d]);
      var v := if negative then -magnitude else magnitude;
      if v < Int32Min || Int32Max < v then Failure(OverflowError(s)) else Success(v)
  }

  /** The shortest decimal rendering of `n`, the inverse of the parse. */
  function DecimalString(n: nat): (s: string)
    ensures s != [] && AllDigits(s)
  {
    (if n < 10 then [] else DecimalString(n / 10)) + ['0' + (n % 10) as char]
  }

  lemma {:induction false} DigitsValueOfDecimal(n: nat)
    ensures DigitsValue(DecimalString(n)) == n
  {
    var s := DecimalString(n);
    assert s[..|s| - 1] == if n < 10 then [] else DecimalString(n / 10);
    if n >= 10 {
      DigitsValueOfDecimal(n / 10);
    }
  }

  /** A plain string of digits whose value fits parses to that value. */
  lemma ParseDigits(s: string)
    requires s != [] && AllDigits(s) && DigitsValue(s) <= Int32Max
    ensures ParseInt32(s) == Success(DigitsValue(s))
  {
    assert WhiteSpan(s) == 0 by { assert IsDigit(s[0]); }
    assert s[0..] == s;
    assert DigitSpan(s) == |s|;
    assert s[|s|..] == [] && s[..|s|] == s;
  }

  /** A plain string of digits whose value does not fit is an overflow. */
  lemma ParseDigitsOverflow(s: string)
    requires s != [] && AllDigits(s) && DigitsValue(s) > Int32Max
    ensures ParseInt32(s) == Failure(OverflowError(s))
  {
    assert WhiteSpan(s) == 0 by { assert IsDigit(s[0]); }
    assert s[0..] == s;
    assert DigitSpan(s) == |s|;
    assert s[|s|..] == [] && s[..|s|] == s;
  }

  /** A minus sign before a plain string of digits negates its value. */
  lemma ParseNegatedDigits(s: string)
    requires s != [] && AllDigits(s) && DigitsValue(s) <= -Int32Min
    ensures ParseInt32("-" + s) == Success(-(DigitsValue(s) as int))
  {
    var t := "-" + s;
    assert WhiteSpan(t) == 0;
    assert t[0..] == t && t[1..] == s;
    assert DigitSpan(s) == |s|;
    assert s[|s|..] == [] && s[..|s|] == s;
  }

  /** A count written in decimal within the 32-bit range parses back to itself. */
  lemma ParseDecimalString(n: nat)
    requires n <= Int32Max
    ensures ParseInt32(DecimalString(n)) == Success(n)
  {
    DigitsValueOfDecimal(n);
    ParseDigits(DecimalString(n));
  }
}
