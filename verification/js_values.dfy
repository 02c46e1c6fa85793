/**
 JavaScript numbers and the conversions the scripts apply to text:
 `parseInt(s, 10)`, `parseFloat(s)`, the string-to-number conversion behind
 `<` and `>`, strict equality, and decimal printing of integers.

 Numbers are kept exact (`real`); IEEE-754 rounding is not modelled.
 */
module JsValues {
  import opened Outcomes
  import opened JsText

  /** What `parseInt(s, 10)` returns: an integer, or NaN. */
  datatype ParsedInt = IntNaN | Int(value: int)

  /** A JavaScript number: NaN or a finite value. */
  datatype Number = NaN | Fin(value: real)

  /** A value read from a JSON record: a string, a number, `null`, or a missing property. */
  datatype JsValue = JStr(s: string) | JNum(n: Number) | JNull | JUndefined

  predicate IsDigit(c: char) {
    '0' <= c <= '9'
  }

  function DigitValue(c: char): nat
    requires IsDigit(c)
  {
    c as int - '0' as int
  }

  function DigitChar(n: nat): (c: char)
    requires n < 10
    ensures IsDigit(c) && DigitValue(c) == n
  {
    ('0' as int + n) as char
  }

  predicate AllDigits(s: string) {
    forall i :: 0 <= i < |s| ==> IsDigit(s[i])
  }

  /** The longest prefix of `s` made of decimal digits. */
  function DigitRun(s: string): (d: string)
    ensures StartsWith(s, d) && AllDigits(d)
    ensures |d| == |s| || !IsDigit(s[|d|])
  {
    if |s| > 0 && IsDigit(s[0]) then [s[0]] + DigitRun(s[1..]) else []
  }

  /** The value of a string of decimal digits, read most significant first. */
  function DigitsValue(d: string): nat
    requires AllDigits(d)
  {
    if d == [] then 0 else DigitsValue(d[..|d| - 1]) * 10 + DigitValue(d[|d| - 1])
  }

  /** The decimal form of a natural number, as `String(n)` prints it. */
  function NatToString(n: nat): (s: string)
    ensures |s| > 0 && AllDigits(s)
  {
    if n < 10 then [DigitChar(n)] else NatToString(n / 10) + [DigitChar(n % 10)]
  }

  /** The decimal form of an integer, as `String(i)` prints it. */
  function IntToString(i: int): string {
    if i < 0 then "-" + NatToString(-i) else NatToString(i)
  }

  /** How `${x}` prints the result of `parseInt`. */
  function ParsedIntToString(p: ParsedInt): string {
    match p
    case IntNaN => "NaN"
    case Int(i) => IntToString(i)
  }

  /** Splits off one leading sign character: (is it negative, the rest). */
  function SplitSign(t: string): (bool, string) {
    if |t| > 0 && t[0] == '-' then (true, t[1..])
    else if |t| > 0 && t[0] == '+' then (false, t[1..])
    else (false, t)
  }

  /** `parseInt(s, 10)`: skip leading white space, take an optional sign and the longest run of digits. */
  function ParseInt(s: string): ParsedInt {
    var (negative, body) := SplitSign(TrimStart(s));
    var d := DigitRun(body);
    if d == [] then IntNaN
    else Int(if negative then -(DigitsValue(d) as int) else DigitsValue(d))
  }

  function Pow10(e: nat): (p: nat)
    ensures p >= 1
  {
    if e == 0 then 1 else 10 * Pow10(e - 1)
  }

  /** Ten to the power `e`, for any integer `e`. */
  function Scale(e: int): real {
    if e >= 0 then Pow10(e) as real else 1.0 / (Pow10(-e) as real)
  }

  /** The exponent part `e±ddd` at the start of `s`, if any: (length, exponent). */
  function ExponentPrefix(s: string): (r: (nat, int))
    ensures r.0 <= |s|
  {
    if |s| > 0 && (s[0] == 'e' || s[0] == 'E') then
      var (negative, body) := SplitSign(s[1..]);
      var d := DigitRun(body);
      if d == [] then (0, 0)
      else ((|s| - |body|) + |d|, if negative then -(DigitsValue(d) as int) else DigitsValue(d))
    else (0, 0)
  }

  /**
   The longest unsigned decimal literal at the start of `s`
   (digits, an optional fraction, an optional exponent): its length and value.
   */
  function UnsignedDecimalPrefix(s: string): (r: Option<(nat, real)>)
    ensures r.Some? ==> 0 < r.value.0 <= |s|
  {
    var intPart := DigitRun(s);
    var afterInt := s[|intPart|..];
    var hasDot := |afterInt| > 0 && afterInt[0] == '.';
    var fracPart := if hasDot then DigitRun(afterInt[1..]) else [];
    if intPart == [] && fracPart == [] then None
    else
      var mantissaLength := |intPart| + (if hasDot then 1 else 0) + |fracPart|;
      var (exponentLength, exponent) := ExponentPrefix(s[mantissaLength..]);
      Some((mantissaLength + exponentLength,
            DigitsValue(intPart + fracPart) as real * Scale(exponent - |fracPart|)))
  }

  /** `parseFloat(s)`: the value of the longest decimal literal after leading white space, else NaN. */
  function ParseFloat(s: string): Number {
    var (negative, body) := SplitSign(TrimStart(s));
    match UnsignedDecimalPrefix(body)
    case None => NaN
    case Some((_, v)) => Fin(if negative then -v else v)
  }

  /** `Number(s)`: white space around is ignored, the empty string is 0, anything else must be one whole literal. */
  function StringToNumber(s: string): Number {
    var t := Trim(s);
    if t == [] then Fin(0.0)
    else
      var (negative, body) := SplitSign(t);
      match UnsignedDecimalPrefix(body)
      case Some((n, v)) => if n == |body| then Fin(if negative then -v else v) else NaN
      case None => NaN
  }

  /** The numeric conversion `<` and `>` apply to a value compared with a number. */
  function ToNumeric(v: JsValue): Number {
    match v
    case JStr(s) => StringToNumber(s)
    case JNum(n) => n
    case JNull => Fin(0.0)
    case JUndefined => NaN
  }

  /** `a < b` on numbers: false whenever either side is NaN. */
  predicate NumberLess(a: Number, b: Number) {
    a.Fin? && b.Fin? && a.value < b.value
  }

  /** `a === b` */
  predicate StrictEquals(a: JsValue, b: JsValue) {
    match (a, b)
    case (JStr(x), JStr(y)) => x == y
    case (JNum(Fin(x)), JNum(Fin(y))) => x == y
    case (JNull, JNull) => true
    case (JUndefined, JUndefined) => true
    case _ => false
  }

  /** No value, not even NaN itself, is strictly equal to NaN; everything else equals itself. */
  lemma StrictEqualsReflexiveExceptNaN(a: JsValue)
    ensures StrictEquals(a, a) <==> a != JNum(NaN)
  {
  }

  /** Reading the printed digits of `n` gives `n` back. */
  lemma {:induction false} DigitsValueOfNatToString(n: nat)
    ensures DigitsValue(NatToString(n)) == n
    decreases n
  {
    var s := NatToString(n);
    if n >= 10 {
      assert s[..|s| - 1] == NatToString(n / 10);
      DigitsValueOfNatToString(n / 10);
    }
  }

  /** A string of digits is its own longest digit run. */
  lemma {:induction false} DigitRunOfDigits(s: string)
    requires AllDigits(s)
    ensures DigitRun(s) == s
    decreases |s|
  {
    if |s| > 0 {
      DigitRunOfDigits(s[1..]);
    }
  }

  /** A string starting with a non-space character has nothing to trim. */
  lemma TrimStartKeeps(s: string)
    requires |s| > 0 && !IsSpace(s[0])
    ensures TrimStart(s) == s
  {
  }

  /** `parseInt` reads the decimal form of a natural number as that number. */
  lemma ParseIntOfNatToString(n: nat)
    ensures ParseInt(NatToString(n)) == Int(n)
  {
    var s := NatToString(n);
    DigitsValueOfNatToString(n);
    DigitRunOfDigits(s);
    TrimStartKeeps(s);
    assert SplitSign(s) == (false, s);
  }

  /** `parseInt` reads a minus sign and the decimal form of `n` as `-n`. */
  lemma ParseIntOfNegative(n: nat)
    ensures ParseInt("-" + NatToString(n)) == Int(-(n as int))
  {
    var digits := NatToString(n);
    var s := "-" + digits;
    DigitsValueOfNatToString(n);
    DigitRunOfDigits(digits);
    TrimStartKeeps(s);
    assert s[1..] == digits;
    assert SplitSign(s) == (true, digits);
  }

  /** `parseInt` inverts `String` on integers. */
  lemma ParseIntOfIntToString(i: int)
    ensures ParseInt(IntToString(i)) == Int(i)
  {
    if i < 0 {
      var n: nat := -i;
      assert IntToString(i) == "-" + NatToString(n);
      ParseIntOfNegative(n);
    } else {
      var n: nat := i;
      assert IntToString(i) == NatToString(n);
      ParseIntOfNatToString(n);
    }
  }

  /** A non-empty run of digits is a whole decimal literal with no fraction or exponent. */
  lemma UnsignedDecimalOfDigits(s: string)
    requires |s| > 0 && AllDigits(s)
    ensures UnsignedDecimalPrefix(s) == Some((|s|, DigitsValue(s) as real))
  {
    DigitRunOfDigits(s);
    assert s[|s|..] == [];
    assert ExponentPrefix([]) == (0, 0);
    assert s + [] == s;
    assert Scale(0) == 1.0;
  }

  /** `parseFloat` reads the decimal form of a natural number as that number. */
  lemma ParseFloatOfNatToString(n: nat)
    ensures ParseFloat(NatToString(n)) == Fin(n as real)
  {
    var s := NatToString(n);
    DigitsValueOfNatToString(n);
    TrimStartKeeps(s);
    assert SplitSign(s) == (false, s);
    UnsignedDecimalOfDigits(s);
  }

  /** `parseFloat` yields NaN on the empty string, and `Number` yields 0 on it. */
  lemma EmptyTextConversions()
    ensures ParseFloat("") == NaN
    ensures StringToNumber("") == Fin(0.0)
  {
  }
}
