/**
 * JavaScript numbers as the client uses them: the conversion `Number(string)`,
 * `isNaN`, the truncation `ToIntegerOrInfinity` that `Date` applies to its
 * arguments, and comparisons against constants. Finite numbers are exact reals.
 */
module Numbers {
  import opened Strings
  import opened Wrappers

  datatype Number = NaN | PosInfinity | NegInfinity | Finite(value: real)

  /** ToIntegerOrInfinity on a finite number: truncation toward zero. */
  function Trunc(r: real): (i: int)
    ensures r >= 0.0 ==> i as real <= r < i as real + 1.0
    ensures r < 0.0 ==> i as real - 1.0 < r <= i as real
  {
    if r >= 0.0 then r.Floor else -((-r).Floor)
  }

  /** `x + k` for an integer `k`. */
  function AddInt(x: Number, k: int): Number {
    match x
    case Finite(v) => Finite(v + k as real)
    case _ => x
  }

  /** `x < c`; a comparison with NaN is false. */
  predicate LessThan(x: Number, c: real) {
    match x
    case NaN => false
    case PosInfinity => false
    case NegInfinity => true
    case Finite(v) => v < c
  }

  /** `x > c`; a comparison with NaN is false. */
  predicate GreaterThan(x: Number, c: real) {
    match x
    case NaN => false
    case PosInfinity => true
    case NegInfinity => false
    case Finite(v) => v > c
  }

  function Pow10(e: int): (p: real)
    ensures p > 0.0
    decreases if e < 0 then -e else e
  {
    if e == 0 then 1.0 else if e > 0 then 10.0 * Pow10(e - 1) else Pow10(e + 1) / 10.0
  }

  /** Value of a digit in base 2, 8 or 16, if `c` is one. */
  function BaseDigit(c: char, base: nat): (v: int)
    ensures v < base
  {
    var d :=
      if '0' <= c <= '9' then c as int - '0' as int
      else if 'a' <= c <= 'f' then c as int - 'a' as int + 10
      else if 'A' <= c <= 'F' then c as int - 'A' as int + 10
      else -1;
    if d < base then d else -1
  }

  predicate AllBaseDigits(s: string, base: nat) {
    forall i :: 0 <= i < |s| ==> BaseDigit(s[i], base) >= 0
  }

  function BaseValue(s: string, base: nat): nat
    requires AllBaseDigits(s, base)
  {
    if s == [] then 0 else BaseValue(s[..|s| - 1], base) * base + BaseDigit(s[|s| - 1], base)
  }

  /** Index of the first `e` or `E`, or the length when there is none. */
  function ExponentMark(s: string): (k: nat)
    ensures k <= |s| && forall i :: 0 <= i < k ==> s[i] != 'e' && s[i] != 'E'
    ensures k < |s| ==> s[k] == 'e' || s[k] == 'E'
  {
    if s == [] then 0 else if s[0] == 'e' || s[0] == 'E' then 0 else ExponentMark(s[1..]) + 1
  }

  /** A SignedInteger of an exponent part: optional sign, then at least one digit. */
  function SignedInteger(s: string): Option<int> {
    var (neg, digits) :=
      if s != [] && s[0] == '+' then (false, s[1..])
      else if s != [] && s[0] == '-' then (true, s[1..])
      else (false, s);
    if digits != [] && AllDigits(digits) then
      var v: int := DecimalValue(digits);
      Some(if neg then -v else v)
    else None
  }

  /** The value of the digits `whole.fraction` times ten to the power `exponent`. */
  function DecimalMagnitude(whole: string, fraction: string, exponent: int): (r: real)
    requires AllDigits(whole) && AllDigits(fraction)
    ensures r >= 0.0
  {
    var a := DecimalValue(whole) as real + DecimalValue(fraction) as real / Pow10(|fraction|);
    var b := Pow10(exponent);
    assert a >= 0.0 && b > 0.0;
    a * b
  }

  /** An unsigned decimal literal: `Infinity`, or digits with an optional fraction and exponent. */
  function UnsignedDecimal(u: string): (r: Number)
    ensures r.Finite? ==> r.value >= 0.0
    ensures !r.NegInfinity?
  {
    if u == "Infinity" then PosInfinity
    else
      var k := ExponentMark(u);
      var mantissa := u[..k];
      var exponent := if k < |u| then SignedInteger(u[k + 1..]) else Some(0);
      var (whole, fraction) :=
        if '.' in mantissa then
          var i := IndexOf(mantissa, '.');
          (mantissa[..i], mantissa[i + 1..])
        else (mantissa, "");
      if exponent.Some? && AllDigits(whole) && AllDigits(fraction) && |whole| + |fraction| >= 1 then
        Finite(DecimalMagnitude(whole, fraction, exponent.value))
      else NaN
  }

  /** A `0x`, `0o` or `0b` prefix followed by at least one character. */
  predicate HasRadixPrefix(t: string) {
    |t| > 2 && t[0] == '0' && t[1] in "xXoObB"
  }

  function RadixOf(c: char): nat {
    if c == 'x' || c == 'X' then 16 else if c == 'o' || c == 'O' then 8 else 2
  }

  /** A hexadecimal, octal or binary integer literal (never signed). */
  function RadixLiteral(t: string): (r: Number)
    requires HasRadixPrefix(t)
    ensures r.NaN? || (r.Finite? && r.value >= 0.0)
  {
    var base := RadixOf(t[1]);
    if AllBaseDigits(t[2..], base) then Finite(BaseValue(t[2..], base) as real) else NaN
  }

  /** A decimal literal with an optional sign. */
  function SignedDecimal(t: string): Number
    requires t != []
  {
    if t[0] == '+' then UnsignedDecimal(t[1..])
    else if t[0] == '-' then
      match UnsignedDecimal(t[1..])
      case Finite(v) => Finite(-v)
      case PosInfinity => NegInfinity
      case other => other
    else UnsignedDecimal(t)
  }

  /**
   * `Number(s)` for a string: surrounding white space is ignored, an empty
   * string is 0, `0x`/`0o`/`0b` prefixes select a base, a decimal literal may
   * carry a sign, anything else is NaN.
   */
  function StringToNumber(s: string): Number {
    var t := Trim(s);
    if t == [] then Finite(0.0)
    else if HasRadixPrefix(t) then RadixLiteral(t)
    else SignedDecimal(t)
  }

  lemma TrimOfDigits(s: string)
    requires AllDigits(s)
    ensures Trim(s) == s
  {
    if s != [] {
      assert !IsJsWhitespace(s[0]) && !IsJsWhitespace(s[|s| - 1]);
      assert TrimStart(s) == s;
    }
  }

  lemma UnsignedDecimalOfDigits(s: string)
    requires AllDigits(s) && s != []
    ensures UnsignedDecimal(s) == Finite(DecimalValue(s) as real)
  {
    assert s != "Infinity" by { assert IsDigit(s[0]); }
    assert forall i :: 0 <= i < |s| ==> s[i] != 'e' && s[i] != 'E' && s[i] != '.';
    var k := ExponentMark(s);
    assert k == |s|;
    assert s[..k] == s;
    assert '.' !in s;
    MagnitudeOfWhole(s);
  }

  /** Digits without a fraction or an exponent have their decimal value. */
  lemma MagnitudeOfWhole(s: string)
    requires AllDigits(s)
    ensures DecimalMagnitude(s, "", 0) == DecimalValue(s) as real
  {
    assert Pow10(0) == 1.0 && Pow10(|""|) == 1.0;
    assert DecimalValue("") == 0;
  }

  /** A non-empty string of decimal digits converts to its decimal value. */
  lemma StringToNumberOfDigits(s: string)
    requires AllDigits(s) && s != []
    ensures StringToNumber(s) == Finite(DecimalValue(s) as real)
  {
    TrimOfDigits(s);
    assert IsDigit(s[0]);
    assert |s| > 2 ==> IsDigit(s[1]);
    assert !HasRadixPrefix(s);
    UnsignedDecimalOfDigits(s);
  }

  /** The empty string converts to 0, not NaN. */
  lemma StringToNumberOfEmpty()
    ensures StringToNumber("") == Finite(0.0)
  {
  }

  /**
   * A string without a minus sign never converts to a negative number; the
   * pieces of a string split at '-' are such strings.
   */
  lemma StringToNumberWithoutMinus(s: string)
    requires '-' !in s
    ensures StringToNumber(s).Finite? ==> StringToNumber(s).value >= 0.0
    ensures !StringToNumber(s).NegInfinity?
  {
    var a := TrimStart(s);
    var t := TrimEnd(a);
    assert t == Trim(s);
    TrimStartFacts(s);
    TrimEndFacts(a);
    if t != [] && !HasRadixPrefix(t) {
      assert t[0] == a[0] == s[|s| - |a|];
      assert t[0] != '-';
    }
  }
}
