/** The closed set of target types a field can hold and `from(envValue:)`,
    the parser each of them gives to an environment string. */
module ValueCoercion {
  import opened Wrappers
  import opened Text

  /** The bit width of a fixed-width integer type; `Word` is the platform
      word of `Int` and `UInt`, taken to be 64 bits. */
  datatype IntWidth = Word | W8 | W16 | W32 | W64

  datatype IntType = IntType(signed: bool, width: IntWidth)

  /** The types a field can be declared with: String, Bool, the ten fixed-width
      integers, and any of them made optional. */
  datatype ValueType =
    | StringType
    | BoolType
    | IntegerType(it: IntType)
    | OptionalType(wrapped: ValueType)

  /** A value of one of those types; an optional holds `NilValue` or wraps a
      value of its wrapped type. */
  datatype Value =
    | StringValue(s: string)
    | BoolValue(b: bool)
    | IntValue(i: int)
    | NilValue
    | SomeValue(inner: Value)

  function MinOf(it: IntType): int {
    if !it.signed then 0
    else match it.width
      case W8 => -0x80
      case W16 => -0x8000
      case W32 => -0x8000_0000
      case W64 => -0x8000_0000_0000_0000
      case Word => -0x8000_0000_0000_0000
  }

  function MaxOf(it: IntType): int {
    match (it.signed, it.width)
    case (true, W8) => 0x7F
    case (true, W16) => 0x7FFF
    case (true, W32) => 0x7FFF_FFFF
    case (true, _) => 0x7FFF_FFFF_FFFF_FFFF
    case (false, W8) => 0xFF
    case (false, W16) => 0xFFFF
    case (false, W32) => 0xFFFF_FFFF
    case (false, _) => 0xFFFF_FFFF_FFFF_FFFF
  }

  predicate InRange(it: IntType, i: int) {
    MinOf(it) <= i <= MaxOf(it)
  }

  predicate HasType(v: Value, t: ValueType) {
    match t
    case StringType => v.StringValue?
    case BoolType => v.BoolValue?
    case IntegerType(it) => v.IntValue? && InRange(it, v.i)
    case OptionalType(w) => v.NilValue? || (v.SomeValue? && HasType(v.inner, w))
  }

  /** `String(describing: T.self)`. */
  function TypeName(t: ValueType): string {
    match t
    case StringType => "String"
    case BoolType => "Bool"
    case IntegerType(it) => (if it.signed then "Int" else "UInt") + WidthSuffix(it.width)
    case OptionalType(w) => "Optional<" + TypeName(w) + ">"
  }

  function WidthSuffix(w: IntWidth): string {
    match w
    case Word => ""
    case W8 => "8"
    case W16 => "16"
    case W32 => "32"
    case W64 => "64"
  }

  /** Reads a type name back. */
  function TypeOfName(name: string): Option<ValueType>
    decreases |name|
  {
    if name == "String" then Some(StringType)
    else if name == "Bool" then Some(BoolType)
    else if |name| >= 4 && name[..4] == "UInt" then
      match WidthOfSuffix(name[4..])
      case Some(w) => Some(IntegerType(IntType(false, w)))
      case None => None
    else if |name| >= 3 && name[..3] == "Int" then
      match WidthOfSuffix(name[3..])
      case Some(w) => Some(IntegerType(IntType(true, w)))
      case None => None
    else if |name| >= 10 && name[..9] == "Optional<" && name[|name| - 1] == '>' then
      match TypeOfName(name[9..|name| - 1])
      case Some(w) => Some(OptionalType(w))
      case None => None
    else None
  }

  function WidthOfSuffix(suffix: string): Option<IntWidth> {
    if suffix == "" then Some(Word)
    else if suffix == "8" then Some(W8)
    else if suffix == "16" then Some(W16)
    else if suffix == "32" then Some(W32)
    else if suffix == "64" then Some(W64)
    else None
  }

  lemma WidthSuffixRoundTrip(w: IntWidth)
    ensures WidthOfSuffix(WidthSuffix(w)) == Some(w)
  {
  }

  /** Every type has its own name, so the name in an error identifies the
      wanted type. */
  lemma {:induction false} TypeNameRoundTrip(t: ValueType)
    ensures TypeOfName(TypeName(t)) == Some(t)
  {
    match t
    case StringType =>
    case BoolType =>
    case IntegerType(it) =>
      var name := TypeName(t);
      WidthSuffixRoundTrip(it.width);
      if it.signed {
        assert name == "Int" + WidthSuffix(it.width);
        assert name[..3] == "Int" && name[3..] == WidthSuffix(it.width);
        assert name[0] == 'I';
        assert !(|name| >= 4 && name[..4] == "UInt") by {
          if |name| >= 4 {
            assert name[1] == 'n';
          }
        }
      } else {
        assert name == "UInt" + WidthSuffix(it.width);
        assert name[..4] == "UInt" && name[4..] == WidthSuffix(it.width);
        assert name[0] == 'U';
      }
    case OptionalType(w) =>
      var name := TypeName(t);
      var inner := TypeName(w);
      assert name == "Optional<" + inner + ">";
      assert name[..9] == "Optional<" && name[9..|name| - 1] == inner;
      assert name[0] == 'O';
      assert name != "String" && name != "Bool";
      TypeNameRoundTrip(w);
  }

  lemma TypeNameInjective(a: ValueType, b: ValueType)
    requires TypeName(a) == TypeName(b)
    ensures a == b
  {
    TypeNameRoundTrip(a);
    TypeNameRoundTrip(b);
  }

  // ----- Bool -----

  /** `Bool.from(envValue:)`: `1` or `true` in any case, `0` or `false` in any
      case; anything else has no value. */
  function ParseBool(raw: string): Option<bool> {
    if raw == "1" || Lower(raw) == "true" then Some(true)
    else if raw == "0" || Lower(raw) == "false" then Some(false)
    else None
  }

  function BoolString(b: bool): string {
    if b then "true" else "false"
  }

  /** The spellings `true`/`false`, in lower or upper case, and the digits
      `1`/`0` all parse to the boolean they name. */
  lemma ParseBoolSpellings(b: bool)
    ensures ParseBool(BoolString(b)) == Some(b)
    ensures ParseBool(Upper(BoolString(b))) == Some(b)
    ensures ParseBool(if b then "1" else "0") == Some(b)
  {
    if b {
      assert Lower("true") == "true";
      assert Upper("true") == "TRUE" && Lower("TRUE") == "true";
    } else {
      assert Lower("false") == "false";
      assert Upper("false") == "FALSE" && Lower("FALSE") == "false";
      assert Lower("0") != "true";
    }
  }

  /** Only a spelling of one or the other has a value: the accepted inputs have
      length 1, 4 or 5, and the empty string or `yes` have none. */
  lemma ParseBoolRejects(raw: string)
    ensures ParseBool(raw).Some? ==> |raw| == 1 || |raw| == 4 || |raw| == 5
    ensures ParseBool("") == None
    ensures ParseBool("yes") == None
    ensures ParseBool("True") == Some(true) && ParseBool("fAlSe") == Some(false)
  {
    assert Lower("") == "";
    assert Lower("yes") == "yes";
    assert Lower("True") == "true";
    assert Lower("fAlSe") == "false";
  }

  // ----- integers -----

  predicate IsDigit(c: char) { '0' <= c <= '9' }

  predicate AllDigits(s: string) {
    forall i :: 0 <= i < |s| ==> IsDigit(s[i])
  }

  function DigitValue(c: char): (d: nat)
    requires IsDigit(c)
    ensures d < 10
  {
    c as int - '0' as int
  }

  function DigitChar(d: nat): (c: char)
    requires d < 10
    ensures IsDigit(c) && DigitValue(c) == d
  {
    ('0' as int + d) as char
  }

  /** The value of a string of decimal digits, most significant first. */
  function DigitsValue(ds: string): nat
    requires AllDigits(ds)
    decreases |ds|
  {
    if |ds| == 0 then 0
    else DigitsValue(ds[..|ds| - 1]) * 10 + DigitValue(ds[|ds| - 1])
  }

  /** The decimal rendering of a natural number, without leading zeros. */
  function NatString(n: nat): (s: string)
    ensures |s| > 0 && AllDigits(s)
  {
    if n < 10 then [DigitChar(n)] else NatString(n / 10) + [DigitChar(n % 10)]
  }

  /** The decimal rendering of an integer: `String(describing:)` of an integer
      value. */
  function DecimalString(i: int): string {
    if i < 0 then "-" + NatString(-i) else NatString(i)
  }

  /** The text Swift's `init?(_ text:)` of a fixed-width integer accepts: an
      optional `+` or `-` followed by one or more ASCII digits; its value is
      computed without regard to the width. */
  function ParseDecimal(s: string): Option<int> {
    if |s| == 0 then None
    else if s[0] == '+' || s[0] == '-' then
      if |s| > 1 && AllDigits(s[1..]) then
        var magnitude: int := DigitsValue(s[1..]);
        Some(if s[0] == '-' then -magnitude else magnitude)
      else None
    else if AllDigits(s) then Some(DigitsValue(s))
    else None
  }

  /** `Self(envValue)` of a fixed-width integer type: the decimal text's value
      when the type can represent it, and no value otherwise. Checking the
      range once at the end agrees with the source's step-by-step overflow
      check, since the partial values only grow in magnitude. */
  function ParseInteger(it: IntType, raw: string): (r: Option<int>)
    ensures r.Some? ==> InRange(it, r.value)
    ensures r.Some? <==> ParseDecimal(raw).Some? && InRange(it, ParseDecimal(raw).value)
  {
    match ParseDecimal(raw)
    case Some(v) => if InRange(it, v) then Some(v) else None
    case None => None
  }

  lemma {:induction false} NatStringValue(n: nat)
    ensures DigitsValue(NatString(n)) == n
  {
    if n >= 10 {
      var s := NatString(n);
      assert s[..|s| - 1] == NatString(n / 10);
      NatStringValue(n / 10);
    }
  }

  /** The rendering of any integer reads back as that integer. */
  lemma DecimalRoundTrip(i: int)
    ensures ParseDecimal(DecimalString(i)) == Some(i)
  {
    var s := DecimalString(i);
    if i < 0 {
      assert s[1..] == NatString(-i);
      NatStringValue(-i);
    } else {
      NatStringValue(i);
    }
  }

  /** Rendering then parsing at a width gives the integer back exactly when the
      width can hold it; out-of-range text has no value. */
  lemma IntegerRoundTrip(it: IntType, i: int)
    ensures InRange(it, i) ==> ParseInteger(it, DecimalString(i)) == Some(i)
    ensures !InRange(it, i) ==> ParseInteger(it, DecimalString(i)) == None
  {
    DecimalRoundTrip(i);
  }

  /** Concrete readings: `2` as an Int, the limits of UInt8 and Int8. */
  lemma IntegerLimitExamples()
    ensures ParseInteger(IntType(true, Word), "2") == Some(2)
    ensures ParseInteger(IntType(false, W8), "255") == Some(255)
    ensures ParseInteger(IntType(false, W8), "256") == None
    ensures ParseInteger(IntType(true, W8), "-128") == Some(-128)
  {
    assert DigitsValue("2") == 2;
    assert DigitsValue("25") == 25;
    assert DigitsValue("255") == 255;
    assert DigitsValue("256") == 256;
    assert DigitsValue("12") == 12;
    assert DigitsValue("128") == 128;
    assert "-128"[1..] == "128";
  }

  /** Signs, including a negative zero read as an unsigned value, and text
      that is not a number. */
  lemma IntegerSignExamples()
    ensures ParseInteger(IntType(false, Word), "-0") == Some(0)
    ensures ParseInteger(IntType(false, Word), "-1") == None
    ensures ParseInteger(IntType(true, Word), "+7") == Some(7)
    ensures ParseInteger(IntType(true, Word), "") == None
    ensures ParseInteger(IntType(true, Word), "-") == None
    ensures ParseInteger(IntType(true, Word), " 1") == None
    ensures ParseInteger(IntType(true, Word), "1.5") == None
  {
    assert DigitsValue("0") == 0;
    assert "-0"[1..] == "0";
    assert DigitsValue("1") == 1;
    assert "-1"[1..] == "1";
    assert DigitsValue("7") == 7;
    assert "+7"[1..] == "7";
    assert !IsDigit(" 1"[0]);
    assert !IsDigit("1.5"[1]);
  }

  // ----- all types -----

  /** `T.from(envValue:)`: String is the identity, Bool and the integers parse,
      and an optional type parses its wrapped type and wraps the result. */
  function Parse(t: ValueType, raw: string): (r: Option<Value>)
    ensures r.Some? ==> HasType(r.value, t)
  {
    match t
    case StringType => Some(StringValue(raw))
    case BoolType =>
      (match ParseBool(raw)
       case Some(b) => Some(BoolValue(b))
       case None => None)
    case IntegerType(it) =>
      (match ParseInteger(it, raw)
       case Some(i) => Some(IntValue(i))
       case None => None)
    case OptionalType(w) =>
      (match Parse(w, raw)
       case Some(v) => Some(SomeValue(v))
       case None => None)
  }

  /** Every string is a String value, itself. */
  lemma ParseStringIdentity(raw: string)
    ensures Parse(StringType, raw) == Some(StringValue(raw))
    ensures Parse(OptionalType(StringType), raw) == Some(SomeValue(StringValue(raw)))
  {
  }

  /** An optional type accepts exactly what its wrapped type accepts. */
  lemma {:induction false} ParseOptional(w: ValueType, raw: string)
    ensures Parse(OptionalType(w), raw).Some? <==> Parse(w, raw).Some?
    ensures Parse(w, raw).Some? ==>
              Parse(OptionalType(w), raw) == Some(SomeValue(Parse(w, raw).value))
  {
  }

  /** `String(describing:)` of a value. */
  function Describe(v: Value): string {
    match v
    case StringValue(s) => s
    case BoolValue(b) => BoolString(b)
    case IntValue(i) => DecimalString(i)
    case NilValue => "nil"
    case SomeValue(x) => "Optional(" + DebugDescribe(x) + ")"
  }

  /** `String(reflecting:)`, used for the payload of an optional: a string is
      quoted. */
  function DebugDescribe(v: Value): string {
    match v
    case StringValue(s) => "\"" + s + "\""
    case BoolValue(b) => BoolString(b)
    case IntValue(i) => DecimalString(i)
    case NilValue => "nil"
    case SomeValue(x) => "Optional(" + DebugDescribe(x) + ")"
  }

  /** The two renderings differ only in quoting a string. */
  lemma DebugDescribeQuotes(v: Value)
    ensures v.StringValue? ==> DebugDescribe(v) == "\"" + Describe(v) + "\""
    ensures !v.StringValue? ==> DebugDescribe(v) == Describe(v)
  {
  }

  /** The description of a non-optional value parses back to that value. */
  lemma DescribeParses(t: ValueType, v: Value)
    requires !t.OptionalType? && HasType(v, t)
    ensures Parse(t, Describe(v)) == Some(v)
  {
    match t
    case StringType =>
    case BoolType => ParseBoolSpellings(v.b);
    case IntegerType(it) => IntegerRoundTrip(it, v.i);
  }
}
