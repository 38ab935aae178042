/** The scalar value synthesiser: the text written for an element of simple
    type. The first facet rule that fires decides the value, in the order
    enumeration, pattern, length, minLength; without a restriction, or when no
    rule fires, the type code decides. */
module SimpleValues {
  import opened Wrappers
  import opened Schema
  import opened IntParse

  /** The current local time, read from the clock and rendered in the three
      formats the generator uses: "yyyy-MM-dd", "HH:mm:ss" and the round-trip
      format "o". */
  datatype Clock = Clock(date: string, time: string, roundTrip: string)

  /** What value synthesis takes from outside the repository: the Xeger
      regex-to-string generator, as a function that gives `None` where Xeger
      throws, and the clock. */
  datatype Environment = Environment(xeger: string -> Option<string>, now: Clock)

  /** No facet of `kind` stands before position `i`. */
  predicate NoneBefore(facets: seq<Facet>, kind: FacetKind, i: int)
    requires 0 <= i <= |facets|
  {
    forall j :: 0 <= j < i ==> facets[j].kind != kind
  }

  /** The first facet of a kind, as `OfType<K>().FirstOrDefault()` finds it. */
  function First(facets: seq<Facet>, kind: FacetKind): (r: Option<Facet>)
    ensures r.None? <==> forall i :: 0 <= i < |facets| ==> facets[i].kind != kind
    ensures r.Some? ==> exists i :: 0 <= i < |facets| && facets[i] == r.value && r.value.kind == kind && NoneBefore(facets, kind, i)
    ensures forall i :: 0 <= i < |facets| && facets[i].kind == kind && NoneBefore(facets, kind, i) ==>
              r == Some(facets[i])
  {
    if facets == [] then None
    else if facets[0].kind == kind then Some(facets[0])
    else
      var r := First(facets[1..], kind);
      assert forall i :: 1 <= i < |facets| ==> facets[i] == facets[1..][i - 1];
      assert r.Some? ==> exists i :: 0 <= i < |facets| && facets[i] == r.value && r.value.kind == kind && NoneBefore(facets, kind, i) by {
        if r.Some? {
          var i :| 0 <= i < |facets[1..]| && facets[1..][i] == r.value && r.value.kind == kind && NoneBefore(facets[1..], kind, i);
          assert facets[i + 1] == r.value && NoneBefore(facets, kind, i + 1);
        }
      }
      r
  }

  /** `facet?.Value` for the first facet of a kind: the value of the first
      facet of that kind, null when there is no such facet or its value is
      null. */
  function FirstValue(facets: seq<Facet>, kind: FacetKind): (v: Option<string>)
    ensures v.Some? ==> exists i :: 0 <= i < |facets| && facets[i] == Facet(kind, v) && NoneBefore(facets, kind, i)
    ensures v.None? <==>
              (forall i :: 0 <= i < |facets| ==> facets[i].kind != kind) ||
              (exists i :: 0 <= i < |facets| && facets[i].kind == kind && NoneBefore(facets, kind, i) && facets[i].value.None?)
  {
    match First(facets, kind)
    case None => None
    case Some(f) => f.value
  }

  /** `new string(c, n)`. */
  function Repeat(c: char, n: nat): (s: string)
    ensures |s| == n
    ensures forall i :: 0 <= i < n ==> s[i] == c
  {
    if n == 0 then [] else Repeat(c, n - 1) + [c]
  }

  /** The largest length of a .NET string, `0x3FFFFFDF` characters; `new string`
      throws `OutOfMemoryException` for a longer one. */
  const MaxStringLength: int := 0x3FFF_FFDF

  /** `new string('A', int.Parse(literal))`, the value of a length or minLength
      facet: as many `A`s as the literal says, or the exception it raises. */
  function Filler(literal: string): (r: Result<string, FacetError>)
    ensures r.Success? ==> ParseInt32(literal) == Success(|r.value|) && |r.value| <= MaxStringLength
    ensures r.Success? ==> forall i :: 0 <= i < |r.value| ==> r.value[i] == 'A'
    ensures r.Failure? ==>
              (ParseInt32(literal).Failure? && r.error == ParseInt32(literal).error) ||
              (ParseInt32(literal).Success? && ParseInt32(literal).value < 0 &&
               r.error == NegativeCount(ParseInt32(literal).value)) ||
              (ParseInt32(literal).Success? && ParseInt32(literal).value > MaxStringLength &&
               r.error == StringTooLong(ParseInt32(literal).value))
  {
    match ParseInt32(literal)
    case Failure(e) => Failure(e)
    case Success(n) =>
      if n < 0 then Failure(NegativeCount(n))
      else if n > MaxStringLength then Failure(StringTooLong(n))
      else Success(Repeat('A', n))
  }

  /** The catch around Xeger: its output, or the pattern itself when it throws. */
  function GenerateStringFromRegex(pattern: string, xeger: string -> Option<string>): (s: string)
    ensures xeger(pattern).None? ==> s == pattern
    ensures xeger(pattern).Some? ==> s == xeger(pattern).value
  {
    match xeger(pattern)
    case Some(generated) => generated
    case None => pattern
  }

  /** `$"Sample_{element.Name}"`: a null name interpolates as the empty string. */
  function SamplePlaceholder(name: Option<string>): (s: string)
    ensures |s| >= 7 && s[..7] == "Sample_"
    ensures name.Some? ==> s[7..] == name.value
    ensures name.None? ==> s == "Sample_"
  {
    "Sample_" + match name { case Some(n) => n case None => "" }
  }

  /** The type codes of the integer family. */
  predicate IsIntegerFamily(code: TypeCode)
  {
    code in {Int, Integer, NegativeInteger, NonNegativeInteger, NonPositiveInteger, PositiveInteger, UnsignedInt}
  }

  /** The value chosen by type code alone: "123" for the integer family,
      "123.45" for decimal, "true" for boolean, the clock for date, time and
      dateTime, and `Sample_<name>` for string and every other code. */
  function TypeDefault(code: TypeCode, name: Option<string>, now: Clock): (s: string)
    ensures IsIntegerFamily(code) ==> s == "123"
    ensures code == Decimal ==> s == "123.45"
    ensures code == Boolean ==> s == "true"
    ensures code == Date ==> s == now.date
    ensures code == Time ==> s == now.time
    ensures code == DateTime ==> s == now.roundTrip
    ensures !IsIntegerFamily(code) && code !in {Decimal, Boolean, Date, Time, DateTime} ==>
              s == "Sample_" + (if name.Some? then name.value else "")
  {
    match code
    case String => SamplePlaceholder(name)
    case Int | Integer | NegativeInteger | NonNegativeInteger | NonPositiveInteger
      | PositiveInteger | UnsignedInt => "123"
    case Decimal => "123.45"
    case Boolean => "true"
    case Date => now.date
    case Time => now.time
    case DateTime => now.roundTrip
    case _ => SamplePlaceholder(name)
  }

  predicate IsCountKind(kind: FacetKind) { kind == Length || kind == MinLength }

  /** The facet rules of a restriction, tried in order; `None` when none fires.
      Only a length or minLength rule can throw. */
  function FacetValue(facets: seq<Facet>, env: Environment): (r: Option<Result<string, FacetError>>)
    ensures r.None? <==>
              First(facets, Enumeration).None? && FirstValue(facets, Pattern).None? &&
              FirstValue(facets, Length).None? && FirstValue(facets, MinLength).None?
    ensures r.Some? && r.value.Failure? ==>
              exists i :: 0 <= i < |facets| && IsCountKind(facets[i].kind) && facets[i].value.Some? &&
                          Filler(facets[i].value.value) == r.value
  {
    var enum := First(facets, Enumeration);
    if enum.Some? then
      Some(Success(match enum.value.value { case Some(v) => v case None => "" }))
    else if FirstValue(facets, Pattern).Some? then
      Some(Success(GenerateStringFromRegex(FirstValue(facets, Pattern).value, env.xeger)))
    else if FirstValue(facets, Length).Some? then
      Some(Filler(FirstValue(facets, Length).value))
    else if FirstValue(facets, MinLength).Some? then
      Some(Filler(FirstValue(facets, MinLength).value))
    else
      None
  }

  /** The value written for an element named `name` whose type is `st`. The only
      failure is a length or minLength literal that gives no count. */
  function GenerateSimpleTypeValue(name: Option<string>, st: SimpleType, env: Environment): (r: Result<string, FacetError>)
    ensures r.Failure? ==>
              st.content.Restriction? &&
              exists i :: 0 <= i < |st.content.facets| && IsCountKind(st.content.facets[i].kind) &&
                          st.content.facets[i].value.Some? &&
                          Filler(st.content.facets[i].value.value) == Failure(r.error)
  {
    var fromFacets := if st.content.Restriction? then FacetValue(st.content.facets, env) else None;
    match fromFacets
    case Some(r) => r
    case None => Success(TypeDefault(st.typeCode, name, env.now))
  }

  /** An enumeration decides the value whatever else the restriction holds: the
      value of the first enumeration facet, or "" when that value is null. */
  lemma EnumerationComesFirst(name: Option<string>, st: SimpleType, env: Environment, i: nat)
    requires st.content.Restriction? && i < |st.content.facets|
    requires st.content.facets[i].kind == Enumeration && NoneBefore(st.content.facets, Enumeration, i)
    ensures GenerateSimpleTypeValue(name, st, env) ==
              Success(match st.content.facets[i].value { case Some(v) => v case None => "" })
  {
  }

  /** Without an enumeration, the first pattern facet, when its value is not
      null, decides the value: what the regex generator makes of it. */
  lemma PatternComesSecond(name: Option<string>, st: SimpleType, env: Environment, i: nat, pattern: string)
    requires st.content.Restriction? && i < |st.content.facets|
    requires forall j :: 0 <= j < |st.content.facets| ==> st.content.facets[j].kind != Enumeration
    requires st.content.facets[i] == Facet(Pattern, Some(pattern)) && NoneBefore(st.content.facets, Pattern, i)
    ensures GenerateSimpleTypeValue(name, st, env) == Success(GenerateStringFromRegex(pattern, env.xeger))
  {
  }

  /** With a sound regex generator, a pattern-decided value matches the pattern
      or, where the generator fails, is the pattern text itself. `matches` is
      the schema's regular-expression dialect, which is not modelled. */
  lemma PatternValueMatchesOrIsPattern(pattern: string, xeger: string -> Option<string>, matches: (string, string) -> bool)
    requires forall p :: xeger(p).Some? ==> matches(p, xeger(p).value)
    ensures matches(pattern, GenerateStringFromRegex(pattern, xeger)) || GenerateStringFromRegex(pattern, xeger) == pattern
  {
  }

  /** Without an enumeration or a pattern value, the first length facet, when
      its value is not null, decides the value: that many `A`s, or the error of
      its literal. */
  lemma LengthComesThird(name: Option<string>, st: SimpleType, env: Environment, i: nat, literal: string)
    requires st.content.Restriction? && i < |st.content.facets|
    requires forall j :: 0 <= j < |st.content.facets| ==> st.content.facets[j].kind != Enumeration
    requires FirstValue(st.content.facets, Pattern).None?
    requires st.content.facets[i] == Facet(Length, Some(literal)) && NoneBefore(st.content.facets, Length, i)
    ensures GenerateSimpleTypeValue(name, st, env) == Filler(literal)
  {
  }

  /** Without an enumeration, a pattern value or a length value, the first
      minLength facet, when its value is not null, decides the value the same
      way. */
  lemma MinLengthComesFourth(name: Option<string>, st: SimpleType, env: Environment, i: nat, literal: string)
    requires st.content.Restriction? && i < |st.content.facets|
    requires forall j :: 0 <= j < |st.content.facets| ==> st.content.facets[j].kind != Enumeration
    requires FirstValue(st.content.facets, Pattern).None? && FirstValue(st.content.facets, Length).None?
    requires st.content.facets[i] == Facet(MinLength, Some(literal)) && NoneBefore(st.content.facets, MinLength, i)
    ensures GenerateSimpleTypeValue(name, st, env) == Filler(literal)
  {
  }

  /** A count written in decimal, up to the largest string length, gives
      exactly that many `A`s. */
  lemma FillerOfDecimal(n: nat)
    requires n <= MaxStringLength
    ensures Filler(DecimalString(n)) == Success(Repeat('A', n))
  {
    ParseDecimalString(n);
  }

  /** A count within the 32-bit range but above the largest string length is
      the `OutOfMemoryException` of `new string`. */
  lemma FillerRejectsTooLong(n: nat)
    requires MaxStringLength < n <= Int32Max
    ensures Filler(DecimalString(n)) == Failure(StringTooLong(n))
  {
    ParseDecimalString(n);
  }

  /** White space around the count is accepted. */
  lemma FillerAcceptsWhiteSpace()
    ensures Filler(" 3 ") == Success("AAA")
  {
    var s := " 3 ";
    assert WhiteSpan(s) == 1 by { assert WhiteSpan(s[1..]) == 0; }
    var u := s[1..];
    assert u == "3 ";
    assert DigitSpan(u) == 1 by { assert DigitSpan(u[1..]) == 0; }
    assert u[..1] == "3" && u[1..] == " ";
    assert DigitsValue("3") == 3 by { assert "3"[..0] == []; }
    assert TrailerOk(" ") by { assert WhiteSpan(" ") == 1; }
    assert Repeat('A', 3) == "AAA";
  }

  /** A literal that is not a number is a format error. */
  lemma FillerRejectsNonNumber()
    ensures Filler("3x") == Failure(FormatError("3x"))
    ensures Filler("") == Failure(FormatError(""))
  {
    var s := "3x";
    assert WhiteSpan(s) == 0;
    assert s[0..] == s;
    assert DigitSpan(s) == 1 by { assert DigitSpan(s[1..]) == 0; }
    assert s[1..] == "x";
    assert !TrailerOk("x") by { assert WhiteSpan("x") == 0; }
  }

  /** A count beyond the 32-bit range is an overflow error. */
  lemma FillerRejectsOverflow(n: nat)
    requires n > Int32Max
    ensures Filler(DecimalString(n)) == Failure(OverflowError(DecimalString(n)))
  {
    DigitsValueOfDecimal(n);
    ParseDigitsOverflow(DecimalString(n));
  }

  /** A negative count is an error of its own. */
  lemma FillerRejectsNegative(n: nat)
    requires 0 < n <= -Int32Min
    ensures Filler("-" + DecimalString(n)) == Failure(NegativeCount(-(n as int)))
  {
    var digits := DecimalString(n);
    DigitsValueOfDecimal(n);
    ParseNegatedDigits(digits);
    assert ParseInt32("-" + digits) == Success(-(n as int));
  }

  /** No facet rule fires: there is no restriction, or it has no enumeration,
      and its first pattern, length and minLength facets are absent or null. */
  predicate NoApplicableFacet(st: SimpleType)
  {
    st.content.Restriction? ==>
      First(st.content.facets, Enumeration).None? &&
      FirstValue(st.content.facets, Pattern).None? &&
      FirstValue(st.content.facets, Length).None? &&
      FirstValue(st.content.facets, MinLength).None?
  }

  /** When no facet rule fires, the value depends on the type code alone. */
  lemma TypeCodeDecides(name: Option<string>, st1: SimpleType, st2: SimpleType, env: Environment)
    requires NoApplicableFacet(st1) && NoApplicableFacet(st2) && st1.typeCode == st2.typeCode
    ensures GenerateSimpleTypeValue(name, st1, env) == GenerateSimpleTypeValue(name, st2, env)
    ensures GenerateSimpleTypeValue(name, st1, env) == Success(TypeDefault(st1.typeCode, name, env.now))
  {
  }

  /** The integer a literal denotes under the lexical rules of the XML Schema
      integer types (W3C XML Schema 1.0 Part 2, section 3.3): an optional sign
      and at least one decimal digit. */
  function XsdIntegerValue(s: string): Option<int>
  {
    var signed := s != [] && (s[0] == '+' || s[0] == '-');
    var digits := if signed then s[1..] else s;
    if digits != [] && AllDigits(digits) then
      Some(if signed && s[0] == '-' then -(DigitsValue(digits) as int) else DigitsValue(digits))
    else
      None
  }

  /** A decimal literal (section 3.2.3 of Part 2): an optional sign, digits,
      and optionally a period followed by digits, with at least one digit. */
  predicate IsXsdDecimal(s: string)
  {
    var unsigned := if s != [] && (s[0] == '+' || s[0] == '-') then s[1..] else s;
    var k := DigitSpan(unsigned);
    (k == |unsigned| && k > 0) ||
    (k < |unsigned| && unsigned[k] == '.' && AllDigits(unsigned[k + 1..]) && |unsigned| > 1)
  }

  predicate IntegerIn(s: string, lo: int, hi: int)
  {
    XsdIntegerValue(s).Some? && lo <= XsdIntegerValue(s).value <= hi
  }

  /** `s` is a valid literal of the built-in datatype `code`; codes whose
      lexical space this model does not state (the clock-supplied ones and
      `Other`) accept every string. */
  predicate IsLiteralOf(code: TypeCode, s: string)
  {
    match code
    case String => true
    case Integer => XsdIntegerValue(s).Some?
    case NonPositiveInteger => XsdIntegerValue(s).Some? && XsdIntegerValue(s).value <= 0
    case NegativeInteger => XsdIntegerValue(s).Some? && XsdIntegerValue(s).value <= -1
    case NonNegativeInteger => XsdIntegerValue(s).Some? && XsdIntegerValue(s).value >= 0
    case PositiveInteger => XsdIntegerValue(s).Some? && XsdIntegerValue(s).value >= 1
    case Int => IntegerIn(s, -0x8000_0000, 0x7FFF_FFFF)
    case UnsignedInt => IntegerIn(s, 0, 0xFFFF_FFFF)
    case Long => IntegerIn(s, -0x8000_0000_0000_0000, 0x7FFF_FFFF_FFFF_FFFF)
    case Short => IntegerIn(s, -0x8000, 0x7FFF)
    case Decimal => IsXsdDecimal(s)
    case Boolean => s == "true" || s == "false" || s == "1" || s == "0"
    case Date | Time | DateTime | Other => true
  }

  lemma DigitsValue123()
    ensures AllDigits("123") && DigitsValue("123") == 123
  {
    assert "123"[..2] == "12" && "12"[..1] == "1" && "1"[..0] == [];
  }

  /** Which type-code values are literals of their own type: those for
      string, integer, nonNegativeInteger, positiveInteger, int, unsignedInt,
      decimal and boolean are; "123" is not a negativeInteger nor a
      nonPositiveInteger, and `Sample_<name>` is not a long nor a short. */
  lemma TypeDefaultsAgainstDatatypes(name: Option<string>, now: Clock)
    ensures forall code :: code in {String, Integer, NonNegativeInteger, PositiveInteger, Int, UnsignedInt, Decimal, Boolean} ==>
              IsLiteralOf(code, TypeDefault(code, name, now))
    ensures !IsLiteralOf(NegativeInteger, TypeDefault(NegativeInteger, name, now))
    ensures !IsLiteralOf(NonPositiveInteger, TypeDefault(NonPositiveInteger, name, now))
    ensures !IsLiteralOf(Long, TypeDefault(Long, name, now))
    ensures !IsLiteralOf(Short, TypeDefault(Short, name, now))
  {
    DigitsValue123();
    assert XsdIntegerValue("123") == Some(123);
    var d := "123.45";
    assert DigitSpan(d) == 3 by {
      assert d[1..][1..][1..] == ".45";
      assert DigitSpan(".45") == 0;
    }
    assert d[4..] == "45";
    var placeholder := SamplePlaceholder(name);
    assert placeholder[0] == 'S';
    assert XsdIntegerValue(placeholder).None?;
  }
}
