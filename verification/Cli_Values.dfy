/** What becomes of the text of a leaf: convertValue of utils/env_parse.go. */
module CliValues {
  import opened Options
  import opened Strings
  import opened CliModel

  /** The kinds of field that convertValue tells apart; Unknown is a path without a type. */
  datatype Kind = Unknown | BoolKind | IntKind | UintKind | FloatKind | OtherKind

  const MIN_INT := -0x8000_0000_0000_0000
  const MAX_UINT := 0xFFFF_FFFF_FFFF_FFFF

  /** strconv.ParseBool. */
  function ParseBool(s: string): Option<bool> {
    if s in ["1", "t", "T", "TRUE", "true", "True"] then Some(true)
    else if s in ["0", "f", "F", "FALSE", "false", "False"] then Some(false)
    else None
  }

  /** strconv.ParseInt in base 10 and 64 bits. */
  function ParseInt(s: string): (r: Option<int>)
    ensures r.Some? ==> MIN_INT <= r.value <= MAX_INT
  {
    var unsigned := if s != "" && (s[0] == '+' || s[0] == '-') then s[1..] else s;
    if !Digits(unsigned) then None
    else
      var n := if s[0] == '-' then -DigitsValue(unsigned) else DigitsValue(unsigned);
      if MIN_INT <= n <= MAX_INT then Some(n) else None
  }

  /** strconv.ParseUint in base 10 and 64 bits: no sign is allowed. */
  function ParseUint(s: string): Option<int> {
    if Digits(s) && DigitsValue(s) <= MAX_UINT then Some(DigitsValue(s)) else None
  }

  /** utils/env_parse.go:140-176; which texts are floats is `isFloat`. */
  function ConvertValue(kind: Kind, val: string, isFloat: string -> bool): Scalar {
    match kind
    case Unknown =>
      if val != "0" && val != "1" && ParseBool(val).Some? then Bool(ParseBool(val).value)
      else if ParseInt(val).Some? then Number(ParseInt(val).value)
      else Text(val)
    case BoolKind => if ParseBool(val).Some? then Bool(ParseBool(val).value) else Text(val)
    case IntKind => if ParseInt(val).Some? then Number(ParseInt(val).value) else Text(val)
    case UintKind => if ParseUint(val).Some? then Number(ParseUint(val).value) else Text(val)
    case FloatKind => if isFloat(val) then Real(val) else Text(val)
    case OtherKind => Text(val)
  }

  /** How a value is written as an argument. */
  function Show(v: Scalar): string {
    match v
    case Bool(b) => if b then "true" else "false"
    case Number(n) => if n < 0 then "-" + Decimal(-n) else Decimal(n)
    case Real(text) => text
    case Text(text) => text
  }

  /** Whether a field of this kind can be given this value. */
  predicate Holds(kind: Kind, v: Scalar, isFloat: string -> bool) {
    match v
    case Bool(_) => kind == Unknown || kind == BoolKind
    case Number(n) => ((kind == Unknown || kind == IntKind) && MIN_INT <= n <= MAX_INT) || (kind == UintKind && 0 <= n <= MAX_UINT)
    case Real(text) => kind == FloatKind && isFloat(text)
    case Text(text) =>
      && (kind == Unknown ==> ParseInt(text).None? && ParseBool(text).None?)
      && (kind == BoolKind ==> ParseBool(text).None?)
      && (kind == IntKind ==> ParseInt(text).None?)
      && (kind == UintKind ==> ParseUint(text).None?)
      && (kind == FloatKind ==> !isFloat(text))
  }

  /** NUMERALS.  Digits, leading zeros or not, are a number, within 64 bits; a sign before them, of either
      kind, is allowed only where negative numbers are. */
  lemma SignedNumeral(sign: char, digits: string)
    requires (sign == '+' || sign == '-') && Digits(digits)
    ensures var n := DigitsValue(digits);
      && ParseInt([sign] + digits) ==
           (if sign == '+' then (if n <= MAX_INT then Some(n) else None) else if -n >= MIN_INT then Some(-n) else None)
      && ParseUint([sign] + digits) == None
      && ParseInt(digits) == (if n <= MAX_INT then Some(n) else None)
      && ParseUint(digits) == (if n <= MAX_UINT then Some(n) else None)
  {
    var s := [sign] + digits;
    assert s[0] == sign && s[1..] == digits;
    assert !Digits(s);
    assert '0' <= digits[0] <= '9';
  }

  lemma ShowNumber(n: int)
    ensures var s := Show(Number(n));
      && s != "" && (s[0] == '-' || '0' <= s[0] <= '9')
      && ParseInt(s) == (if MIN_INT <= n <= MAX_INT then Some(n) else None)
      && ParseUint(s) == (if 0 <= n <= MAX_UINT then Some(n) else None)
  {
    var s := Show(Number(n));
    if n < 0 {
      assert s[1..] == Decimal(-n);
    }
  }

  lemma BoolWords(s: string)
    ensures ParseBool(s).Some? && s != "0" && s != "1" ==> s != "" && s[0] != '-' && !('0' <= s[0] <= '9')
    ensures ParseBool(s).Some? && s != "0" && s != "1" ==> ParseInt(s).None?
  {
  }

  lemma ZeroAndOne()
    ensures ParseInt("0") == Some(0) && ParseInt("1") == Some(1)
  {
    assert "0"[..0] == "" && "1"[..0] == "";
  }

  lemma TextConvertIff(kind: Kind, text: string, isFloat: string -> bool)
    ensures ConvertValue(kind, text, isFloat) == Text(text) <==> Holds(kind, Text(text), isFloat)
  {
    BoolWords(text);
    ZeroAndOne();
  }

  lemma NumberConvertIff(kind: Kind, n: int, isFloat: string -> bool)
    ensures ConvertValue(kind, Show(Number(n)), isFloat) == Number(n) <==> Holds(kind, Number(n), isFloat)
  {
    ShowNumber(n);
    BoolWords(Show(Number(n)));
  }

  /** A value written as an argument is read back as itself exactly by the fields that can hold it:
      integers outside 64 bits stay text, and so does a negative number for an unsigned field. */
  lemma ShowConvertIff(kind: Kind, v: Scalar, isFloat: string -> bool)
    ensures ConvertValue(kind, Show(v), isFloat) == v <==> Holds(kind, v, isFloat)
  {
    match v
    case Bool(b) => assert ParseBool(Show(v)) == Some(b);
    case Number(n) => NumberConvertIff(kind, n, isFloat);
    case Real(_) =>
    case Text(text) => TextConvertIff(kind, text, isFloat);
  }
}
